# Verification of the Ibex core's hard blocks

This project models the blocks of the Ibex RISC-V core whose correctness is least obvious from their
source, each as the machine it is: explicit registers, one function for a clock cycle, and inputs that
may be anything the environment is allowed to do. Sizes are parameters wherever the design has
parameters. Registers that the design updates in place are fields of classes whose `Clock` methods are
proved equal to the cycle function; the properties are proved about that function over whole runs.

| files | block |
|---|---|
| `ICacheModel`, `ICacheAge`, `ICacheBus`, `ICacheInval`, `ICacheData`, `ICacheStream`, `ICacheRun`, `ICacheLive`, `ICacheErrors`, `ICacheCaching`, `ICache` | instruction cache |
| `Bits`, `PrefixCounter`, `Butterfly`, `BitPermute` | bit counting, deposit and extract in the ALU |
| `Gf2`, `Clmul`, `Crc`, `CrcConstants` | carry-less multiplication and redundancy checks in the ALU |
| `FunnelShift`, `Shuffle` | two-cycle rotates and funnel shifts, shuffle and unshuffle in the ALU |
| `FetchFifo` | fetch FIFO |
| `Lsu`, `LsuAccess`, `LsuRun` | load/store unit on a bus with a memory |
| `Cosim`, `CosimRuns` | memory checker of the co-simulation |
| `LsuCosim` | load/store unit, bus monitor, checker and simulator together |
| `Zcmp`, `ZcmpMachine`, `ZcmpRun` | expansion of the Zcmp instructions, and a machine that executes it |
| `Pmp` | physical memory protection registers |
| `TrapCsrs`, `Controller`, `TrapStack`, `Traps`, `TrapEntry` | trap registers, controller, interrupts, NMI and integrity errors |

`dafny verify dfyconfig.toml` checks everything.

## What the environment is assumed to do

- Instruction cache: responses come in the order of the grants, at least a cycle later, and only for
  outstanding requests; a response without an error carries what memory holds; memory is constant. The
  RAM read ports deliver what was written unless the error detection says otherwise, which it may at any
  time. Everything else (branches, stalls, enable, invalidation, key, grants) is arbitrary.
- Load/store unit: the ID stage holds a request until it is done, and starts another only when no
  response is outstanding except one arriving now (rtl/ibex_id_stage.sv:642); responses come in order,
  a cycle or more after the grant; the PMP's verdict depends on the word address while an access lasts,
  and a blocked request is not granted. A write takes effect with its response; one answered with an
  error may have taken effect or not.
- Co-simulation: the simulator executes the requests in the order in which the unit completes them, each after
  its completion, an aligned one in one access and a misaligned one byte by byte.
- Fetch FIFO: nothing is pushed into a full FIFO unless it is being cleared, as its own assertions say
  (rtl/ibex_fetch_fifo.sv:266-267).
- Zcmp: an instruction stays valid and unchanged until its last operation is taken. The function body
  between push and pop may do anything but leave the stack pointer or the saved slots changed.
- Registers for traps and PMP: a CSR write arrives with set and clear operations applied and only if it
  is legal. The theorems on traps hold for any inputs; `Traps.Possible` says which the ID stage lets through
  (rtl/ibex_id_stage.sv:534-542, rtl/ibex_cs_registers.sv:325-329), and the runs that show a loss keep to it.

## Results that are not what one might expect

- mprv is not among what an NMI restores: mret clears it when it returns to U-mode
  (`Traps.NmiIsTransparent` says exactly when it survives). Code gets to U-mode with mprv set by way of debug
  mode; `Traps.MprvLostFromReset` is such a run.
- An NMI handler may take one exception and no more, in whatever order its exceptions and returns come, and its
  first return opens it to further NMIs, whose handlers count with it: `Traps.HandlerReturns` proves that with at
  most one exception in all the interrupted code is recovered, and that with more the last return leads to U-mode
  with interrupts enabled, at an address saved in the handler. `Traps.RecoversExactly` decides the case of code that
  was in that very state already, by the address the last return takes, and `Traps.LostFromReset` gives a run from
  reset for every handler with two exceptions or more that can be executed.
- With three traps open at once the handler is never left: `Traps.AtMostTwoOpen`.
- cm.mvsa01 with two equal registers is reserved by the Zc extension's Zcmp section but not rejected;
  `ZcmpMachine.MovesUndo` says exactly when the moves still undo each other.
- The reported address of a memory error is the original, unaligned address only if the first half
  failed (or the access was not split); for the second half it is word-aligned.

## Model

| member | source | states |
|---|---|---|
| `ICacheRun.Transparent` | rtl/ibex_icache.sv:1069-1193 | over every run on a constant memory, from the last branch to the first error accepted, the accepted instructions are the program in memory from the branch target, in order, and an instruction shown without an error is the next one |
| `ICacheRun.ResponsesInOrder` | rtl/ibex_icache.sv:839-851 | a response is taken by the buffer that issued the oldest outstanding request and by no other, in the beat that was asked for |
| `ICacheRun.ReleasedWithNothingOutstanding` | rtl/ibex_icache.sv:728-733 | no fill buffer is released with a response outstanding |
| `ICacheRun.RequestsHeldUntilGranted` | rtl/ibex_icache.sv:1029-1036 | a request that is not granted is repeated for the same address in the next cycle |
| `ICacheRun.AgeIsTotalOrder` | rtl/ibex_icache.sv:721-724 | between busy buffers the age relation is a strict total order, and it is the order of allocation |
| `ICacheRun.IdleAfterFullSweep` | rtl/ibex_icache.sv:1207-1269 | when the invalidation state machine returns to idle, no index of any way is valid |
| `ICacheRun.HitsAreFresh` | rtl/ibex_icache.sv:590-600 | a hit always reads a line whose fill was allocated in the invalidation epoch of the lookup, never one from before an accepted invalidation request |
| `ICacheErrors.TransparentForEver` | rtl/ibex_icache.sv:1010-1062 | if no response carries an error, then from the first branch on no instruction is ever shown with one, and those shown and accepted are the program in memory, in every run |
| `ICacheErrors.ErrorsAreReal` | rtl/ibex_icache.sv:1189-1196 | in every run, until the first error accepted after a branch, an instruction is shown with an error only if the bus word blamed was answered with one since that branch; the second word is blamed only if the instruction reaches into it |
| `ICacheErrors.OfferedError` | rtl/ibex_icache.sv:1012-1062 | data offered carries an error exactly if its line did not hit and its bus word was answered with an error, since the buffer was allocated |
| `ICacheErrors.ErrorsStep` | rtl/ibex_icache.sv:939-956 | any clock edge keeps each error register equal to whether its beat has been answered with an error |
| `ICacheCaching.FilledThenHit` | rtl/ibex_icache.sv:253-283 | a complete line is written when the RAMs are free, oldest first, and looked up next it is served from there |
| `ICacheCaching.HitsIfCached` | rtl/ibex_icache.sv:494-512 | a lookup of an enabled and idle cache hits in the next cycle exactly if some way holds its line, unless the RAMs report an error |
| `ICacheCaching.HitEndsRequests` | rtl/ibex_icache.sv:763-774 | a buffer that hits holds the line of memory and asks the bus for nothing but a request not yet granted |
| `ICacheCaching.FillIsWritten` | rtl/ibex_icache.sv:253-283 | a fill writes its line, valid, to the ways chosen at its index, changes nothing else, and happens once |
| `ICacheCaching.VictimIs` | rtl/ibex_icache.sv:517-535 | the way chosen is the lowest invalid one, and otherwise the next in turn |
| `ICacheCaching.CorruptIsDropped` | rtl/ibex_icache.sv:584-633 | after an error of tags all ways, and after one of data the matching ways, are invalid at the index in the cycle after next, before any lookup; nothing else is lost |
| `ICacheCaching.WantsCaching` | rtl/ibex_icache.sv:655-686 | a line is to be cached exactly if the cache is enabled, idle and not asked to invalidate, and the line is that of a branch, one of the next two, or all are cached |
| `ICacheCaching.LooksUp` | rtl/ibex_icache.sv:247-250 | a lookup is made exactly if asked for with a buffer free and no entry being dropped, and without a branch only while two buffers are not waiting |
| `ICacheCaching.BypassedNeverHits` | rtl/ibex_icache.sv:264-267 | a lookup of a disabled or invalidating cache never hits |
| `ICacheCaching.WrittenOnlyThen` | rtl/ibex_icache.sv:841-842 | a buffer counts as written exactly when it is, so that a line is not lost while the RAMs are in use |
| `ICacheCaching.ReleasedIs` | rtl/ibex_icache.sv:728-740 | a buffer is released exactly when nothing is left for it to deliver, to receive or to write |
| `ICacheCaching.OnlyErrorsDrop` | rtl/ibex_icache.sv:584-597 | entries are dropped for errors of tags, and of data that matched, and for nothing else |
| `ICacheLive.OfferedAtOnce` | rtl/ibex_icache.sv:786-796 | with a response for the oldest pending buffer a word is offered in the same cycle |
| `ICacheErrors.ShownAtOnce` | rtl/ibex_icache.sv:1128-1132 | an error in the data offered is shown at once, without waiting for a second half |
| `ICacheLive.WordArrives` | rtl/ibex_icache.sv:750-800 | in any run, without branches, the cycles that do not offer the next word have between them at most two useful steps (responses, and grants to buffers up to the oldest pending one) for every beat of every buffer; until it is offered a response is due or such a buffer asks for a grant |
| `ICacheLive.Nearer` | rtl/ibex_icache.sv:757-783 | each such step brings the word at least one nearer, and nothing moves it away |
| `ICacheLive.NeverStuck` | rtl/ibex_icache.sv:763-774 | while the word is not offered, a response is due or a buffer it depends on is the one on the bus |
| `ICacheLive.ResponseNeeded` | rtl/ibex_icache.sv:849-851 | every response until then is for a buffer the word depends on |
| `ICacheRun.RunOk` | rtl/ibex_icache.sv:689-1062 | the age, bus, invalidation, data, freshness and stream invariants hold together in every reachable state |
| `ICacheAge.AgeStep` | rtl/ibex_icache.sv:710-745 | any clock edge keeps the history of allocations: it lists exactly the busy buffers, each younger than those before it, finished ones first |
| `ICacheAge.ArbitersOneHot` | rtl/ibex_icache.sv:841-860 | each of the external, RAM, response and output arbiters grants at most one buffer |
| `ICacheAge.SelectedIsOldest` | rtl/ibex_icache.sv:843-848 | of the buffers that still owe output, exactly the oldest is selected |
| `ICacheAge.AllocUnique` | rtl/ibex_icache.sv:712-720 | an allocation takes exactly one buffer, and one that is free |
| `ICacheAge.Total` | rtl/ibex_icache.sv:721-724 | of two busy buffers one is in the other's set of older ones, and not both ways |
| `ICacheBus.BusStep` | rtl/ibex_icache.sv:755-783 | any clock edge keeps the outstanding requests equal to the concatenation, in age order, of what each buffer has requested and not yet received |
| `ICacheBus.ResponseToIssuer` | rtl/ibex_icache.sv:832-851 | the buffer that takes a response is the issuer of the request at the head of the bus queue, and the beat is stored where that request pointed |
| `ICacheBus.ReleasedQuiet` | rtl/ibex_icache.sv:728-733 | a released buffer waits for nothing and is neither granted nor answered in that cycle |
| `ICacheBus.RequestHeld` | rtl/ibex_icache.sv:763-774 | a request not granted is held with its word, speculative or not, cancelled or not |
| `ICacheInval.InvalStep` | rtl/ibex_icache.sv:1207-1295 | any clock edge keeps what the invalidation states promise about the RAM contents swept so far, and that no fill may write while a sweep is due |
| `ICacheInval.SweepStep` | rtl/ibex_icache.sv:1239-1262 | a cycle of the sweep invalidates one index in every way; an error correction write never takes its place |
| `ICacheInval.SweepDone` | rtl/ibex_icache.sv:1239-1262 | the sweep ends only after every entry has been written invalid |
| `ICacheInval.SweepEnds` | rtl/ibex_icache.sv:1239-1262 | a sweep takes one cycle for each index and then ends, if no new request comes |
| `ICacheInval.SweepStarts` | rtl/ibex_icache.sv:1219-1262 | out of reset and on every request the cache waits for a key, and with it sweeps from the first index |
| `ICacheInval.NoFillUnlessIdle` | rtl/ibex_icache.sv:741-745 | away from idle no fill buffer may write the RAMs |
| `ICacheInval.FreshStep` | rtl/ibex_icache.sv:257-277 | any clock edge keeps every valid RAM entry and every caching fill stamped with the current invalidation epoch |
| `ICacheInval.HitIsFresh` | rtl/ibex_icache.sv:590-600 | the entry a lookup hits carries the epoch of that lookup |
| `ICacheData.HitIsLine` | rtl/ibex_icache.sv:496-534 | on a hit the data selected over all matching ways is the line in memory |
| `ICacheData.DataStep` | rtl/ibex_icache.sv:880-983 | any clock edge keeps the data received by a buffer, the data in the RAMs and the data being looked up equal to memory, beat by beat |
| `ICacheData.OutputIsMemory` | rtl/ibex_icache.sv:984-1062 | data offered without an error, from RAM, bus or buffer, is what memory holds at the oldest pending buffer's beat |
| `ICacheStream.AddressArithmetic` | rtl/ibex_icache.sv:1138-1146 | the address increments add two and four bytes, wrapping around the address space |
| `ICacheStream.LengthIs` | rtl/ibex_icache.sv:1128-1146 | an instruction shown without an error is two bytes long exactly if the low two bits of its first halfword are not both set, and its acceptance moves the address on by its length; with an error by four bytes |
| `ICacheStream.MemoryDelimited` | rtl/ibex_icache.sv:1098-1146 | so it is for the program in memory that the stream is compared with |
| `ICacheStream.NeededAfter` | rtl/ibex_icache.sv:1069-1146 | output address and skid buffer move on by one word exactly when data is consumed |
| `ICacheStream.ChainStep` | rtl/ibex_icache.sv:211-240 | the pending buffers always stand for consecutive lines, the first at the next word needed and the prefetch address after the last |
| `ICacheStream.FrontStep` | rtl/ibex_icache.sv:802-808 | the word the oldest pending buffer offers moves on exactly when data is consumed |
| `ICacheStream.PresentedIsMemory` | rtl/ibex_icache.sv:1128-1193 | an instruction shown without an error is, halfword by halfword, the one in memory at the address shown |
| `ICacheStream.StreamStep` | rtl/ibex_icache.sv:1069-1193 | any clock edge keeps the accepted instructions equal to the program walked from the branch target |
| `ICache.ICacheRegisters.Clock` | rtl/ibex_icache.sv:689-1295 | the registers in place take exactly the values of the cycle function at a clock edge |
| `ICache.ICacheRegisters.FillLevel` | rtl/ibex_icache.sv:689-697 | the loop counts the busy buffers that are not stale |
| `ICache.ICacheRegisters.HitData` | rtl/ibex_icache.sv:505-513 | the loop ors together the data of all matching ways |
| `ICache.ICacheRegisters.LineOut` | rtl/ibex_icache.sv:1013-1023 | the output multiplexer finds the line and errors of the buffer that gives out data, without the errors of a hit |
| `ICache.ICacheRegisters.Output` | rtl/ibex_icache.sv:1044-1062 | the word and error given out, of a hit, a buffer or the bus |
| `ICache.ICacheRegisters.Buffer` | rtl/ibex_icache.sv:874-982 | the registers of a buffer after the edge, each under its own enable |
| `ICache.ICacheRegisters.WriteRams` | rtl/ibex_icache.sv:254-283 | a write of the RAMs changes the ways of its bank at its index and no other entry |
| `ICache.ICacheRegisters.UpdateInvalidation` | rtl/ibex_icache.sv:1207-1269 | the state machine with its defaults gives the next invalidation state and index |
| `ICacheRun.InitialExists` | rtl/ibex_icache.sv:880-893 | every configuration has an initial state |
| `ICacheRun.RunsContinue` | rtl/ibex_icache.sv:689-1295 | every legal run can be continued by a cycle with any choice of request, branch in range, ready, grant, response, errors, enable, key and invalidation |
| `PrefixCounter.PrefixCount` | rtl/ibex_alu.sv:507-546 | after all in-place stages position x holds the number of set bits at positions 0 to x, with no overflow of the counters, for every power-of-two width |
| `PrefixCounter.FirstStage` | rtl/ibex_alu.sv:507-512 | stage 1 leaves every odd position with the count of its pair |
| `PrefixCounter.Rise` | rtl/ibex_alu.sv:513-526 | a stage of the primary tree doubles the blocks whose counts the positions hold |
| `PrefixCounter.Fall` | rtl/ibex_alu.sv:527-540 | a stage of the intermediate tree turns the block counts of one more level into totals |
| `PrefixCounter.LastStage` | rtl/ibex_alu.sv:541-545 | the last stage completes the even positions |
| `PrefixCounter.Smear` | rtl/ibex_alu.sv:446-452 | after the doubling shifts a mask bit is set exactly if some operand bit at or below it is |
| `PrefixCounter.BitCount` | rtl/ibex_alu.sv:440-464 | the top counter is the population count, the leading zeros or the trailing zeros of the operand, including 32 for zero |
| `Butterfly.NetworkDeposits` | rtl/ibex_alu.sv:1139-1162 | the network followed by the mask scatters the low bits of the operand to the set positions of the mask, in order |
| `Butterfly.InverseExtracts` | rtl/ibex_alu.sv:1165-1186 | the inverse network on the masked operand gathers the selected bits at the low end, with zeros above |
| `Butterfly.DepositOfExtract` | rtl/ibex_alu.sv:1263-1267 | deposit after extract gives back exactly the bits under the mask |
| `Butterfly.ExtractOfDeposit` | rtl/ibex_alu.sv:1263-1267 | extract after deposit gives back the low bits, as many as the mask has set bits, and zeros |
| `Butterfly.StageAt` | rtl/ibex_alu.sv:1113-1138 | a stage exchanges the two bits of each pair whose rotated control is set and touches nothing else |
| `Butterfly.SplitWindow` | rtl/ibex_alu.sv:1118-1129 | a stage splits the rotated run of bits bound for a segment into the rotated runs for its two halves |
| `Butterfly.NetworkUndone` | rtl/ibex_alu.sv:1165-1186 | the stages in the opposite order undo the network |
| `BitPermute.Store` | rtl/ibex_alu.sv:1052-1075 | the first cycle stores bit 0 of every count and bit b only of the counters of level b and above |
| `BitPermute.LoadCounters` | rtl/ibex_alu.sv:1077-1104 | the bits stored suffice: each reloaded counter agrees with the full count modulo twice its segment half |
| `BitPermute.Permute` | rtl/ibex_alu.sv:1077-1187 | the second cycle, from the two registers alone, computes bit deposit or bit extract for every operand and mask |
| `BitPermute.Bdecompress` | rtl/ibex_alu.sv:1139-1162 | the stage loop of bdecompress computes the deposit |
| `BitPermute.Bcompress` | rtl/ibex_alu.sv:1164-1186 | the stage loop of bcompress computes the extract |
| `Gf2.ProductAssociative` | rtl/ibex_alu.sv:874-890 | carry-less multiplication modulo x^w is associative, the law behind the reduction |
| `Gf2.CoefReversed` | rtl/ibex_alu.sv:889-890 | the product of the reversed operands holds the upper product bits, reversed |
| `Clmul.XorTree` | rtl/ibex_alu.sv:951-971 | the levels of pairwise exclusive-ors add up all rows, bit by bit |
| `Clmul.Raw` | rtl/ibex_alu.sv:951-971 | the tree computes the low word of the polynomial product |
| `Clmul.Multiply` | rtl/ibex_alu.sv:973-985 | clmul, clmulr and clmulh deliver product bits from 0, 31 and 32 on |
| `Crc.Division` | rtl/ibex_alu.sv:861-884 | after n steps of the bit-serial reflected division, operand = quotient times polynomial plus remainder moved up n places |
| `Crc.QuotientIsProduct` | rtl/ibex_alu.sv:868-875 | the serial quotient is the product of the operand with the reciprocal of the polynomial |
| `Crc.FirstCycle` | rtl/ibex_alu.sv:931-938 | the first multiplication leaves the serial quotient, bit-reversed |
| `Crc.SecondCycle` | rtl/ibex_alu.sv:940-949 | the second multiplication gives the part of the remainder that comes from the quotient |
| `Crc.Check` | rtl/ibex_alu.sv:1242-1255 | both cycles together equal n steps of the bit-serial check, for any polynomial with its reciprocal and any n up to the width |
| `Crc.ReciprocalBySteps` | rtl/ibex_alu.sv:868-875 | the quotient of a serial division of one is the reciprocal |
| `Crc.DividesSerially` | rtl/ibex_alu.sv:861-884 | a register that shifts and subtracts holds, bit by bit, the remainder and the quotient of the serial division |
| `Crc.ReciprocalFound` | rtl/ibex_alu.sv:904-908 | a constant that the register finds on dividing one by a polynomial is its reciprocal, in the orders of bits the hardware uses |
| `CrcConstants.Crc32Divides` | rtl/ibex_alu.sv:904-905 | the register finds the second CRC-32 constant on dividing one by the first |
| `CrcConstants.Crc32cDivides` | rtl/ibex_alu.sv:907-908 | and the same for CRC-32C |
| `Crc.Crc32Reciprocal` | rtl/ibex_alu.sv:904-905 | the CRC-32 constants belong together: one is the reciprocal of the other, reversed |
| `Crc.Crc32cReciprocal` | rtl/ibex_alu.sv:907-908 | so do the CRC-32C constants |
| `Crc.Crc` | rtl/ibex_alu.sv:1242-1255 | crc32.b, crc32.h and crc32.w equal 8, 16 and 32 bit-serial steps with the polynomial 04c11db7, and the crc32c forms with 1edc6f41, for every operand |
| `Crc.SerialSplits` | rtl/ibex_alu.sv:1242-1255 | so the wider forms are the narrower ones done repeatedly |
| `FunnelShift.Shift` | rtl/ibex_alu.sv:1228-1240 | over both cycles rotates and funnel shifts read a window of the two operands side by side, cyclically, for every amount including the word swap |
| `FunnelShift.ShifterBit` | rtl/ibex_alu.sv:328-355 | the reversed right shifter shifts either way |
| `FunnelShift.RotatesUndo` | rtl/ibex_alu.sv:1228-1240 | rotating left and right by the same amount undo each other |
| `Shuffle.UnshuffleInverts` | rtl/ibex_alu.sv:654-728 | unshuffle undoes shuffle with the same control, and shuffle unshuffle, for every control and operand |
| `Shuffle.FlippedStages` | rtl/ibex_alu.sv:676-728 | flipping before and after, with the control mirrored, runs the stages in the opposite order |
| `Shuffle.Block` | rtl/ibex_alu.sv:672-728 | the block that reassigns its result stage by stage computes these |
| `Shuffle.ShuffledBit` | rtl/ibex_alu.sv:672-728 | each bit of a shuffled word is the operand's bit at the index with neighbouring bits exchanged, stage by stage |
| `Shuffle.UnshuffledBit` | rtl/ibex_alu.sv:672-728 | and of an unshuffled word, in the opposite order |
| `Shuffle.FullShuffleInterleaves` | rtl/ibex_alu.sv:672-728 | with all stages the two halves of the operand are interleaved |
| `LsuAccess.HalfCovers` | rtl/ibex_load_store_unit.sv:118-183 | the byte enables and rotated data of a half select exactly the bytes of the access that lie in its word, with their data |
| `LsuAccess.SplitMeansCrossing` | rtl/ibex_load_store_unit.sv:361-364 | an access is split exactly if it crosses a word boundary |
| `LsuAccess.WordsApart` | rtl/ibex_id_stage.sv:304-307 | the second half is at the next word, wrapping to address zero at the top |
| `LsuAccess.FirstApplied` | rtl/ibex_load_store_unit.sv:118-183 | writing the first half changes exactly its bytes of the access |
| `LsuAccess.SecondApplied` | rtl/ibex_load_store_unit.sv:118-183 | writing the second half changes exactly the others |
| `LsuAccess.LoadsOne` | rtl/ibex_load_store_unit.sv:227-328 | realignment and extension of one word give the little-endian value of the access |
| `LsuAccess.LoadsTwo` | rtl/ibex_load_store_unit.sv:189-328 | the kept part of the first word and the second word give the little-endian value of a split access |
| `LsuAccess.NumberIs` | rtl/ibex_load_store_unit.sv:227-328 | the value of a load is the little-endian number of its bytes, and for a signed load with the top bit set that number less the range of its size, modulo 2^32 |
| `LsuRun.Step` | rtl/ibex_load_store_unit.sv:366-502 | every state of the state machine keeps the invariant relating registers, bus queue and memory to the access in progress, under any timing |
| `LsuRun.LoadDelivers` | rtl/ibex_load_store_unit.sv:508-514 | an error-free load returns the bytes at addr to addr+size-1, modulo the address space, extended as asked; as a number, their little-endian value, taken as signed if asked |
| `LsuRun.StoreWrites` | rtl/ibex_load_store_unit.sv:118-183 | an error-free store has written all its bytes and nothing else; with an error each half wrote its bytes or nothing |
| `LsuRun.StoreIsBytewise` | rtl/ibex_load_store_unit.sv:118-183 | the written memory holds the data at the bytes of the access and is unchanged at every other address |
| `LsuRun.ErrorsReported` | rtl/ibex_load_store_unit.sv:508-543 | the final response reports an error exactly if either half saw a bus or PMP error, and the last address is then that of the first failing half |
| `LsuRun.ReportedOnce` | rtl/ibex_load_store_unit.sv:508-543 | in every other cycle neither data nor an error is reported, and never two of data, load error and store error |
| `LsuRun.Progress` | rtl/ibex_load_store_unit.sv:366-485 | every grant, response or skipped half brings the access exactly one nearer its end |
| `LsuRun.DoneWhenResponseDue` | rtl/ibex_load_store_unit.sv:487 | the request is reported done exactly when only the final response is still due |
| `LsuRun.NeverStuck` | rtl/ibex_load_store_unit.sv:366-485 | an access in progress always requests, awaits a response or skips a blocked half |
| `LsuRun.EveryRun` | rtl/ibex_load_store_unit.sv:366-510 | in every run each access started gets exactly one final response |
| `Lsu.Registers.Clock` | rtl/ibex_load_store_unit.sv:185-225 | the registers take exactly the values of the cycle function |
| `Lsu.Registers.Decide` | rtl/ibex_load_store_unit.sv:366-485 | the combinational block with its defaults computes next state and enables |
| `Lsu.Registers.constructor` | rtl/ibex_load_store_unit.sv:490-496 | the reset values |
| `Cosim.Checker.NotifyDsideAccess` | dv/cosim/spike_cosim.cc:767-773 | a notified access is queued with no byte seen |
| `Cosim.Checker.CheckMemAccess` | dv/cosim/spike_cosim.cc:857-1053 | result, queue and error log after a check, for every queue and access |
| `Cosim.ExpectedData` | dv/cosim/spike_cosim.cc:970-977 | the assembly loop and the shift put each byte of the simulator's access into its lane |
| `Cosim.MaskedCompare` | dv/cosim/spike_cosim.cc:979-985 | the masked words are equal exactly if all bytes the simulator touched agree |
| `CosimRuns.PassingRunsAreSound` | dv/cosim/spike_cosim.cc:857-1053 | while every check passes, core accesses leave the queue in order, none skipped, each matched by accesses of equal kind, word and data that touch each enabled byte exactly once |
| `CosimRuns.CheckAdds` | dv/cosim/spike_cosim.cc:910-964 | a passing check adds bytes not seen before and dequeues exactly when all enabled bytes are seen |
| `CosimRuns.ErrorsAreTrue` | dv/cosim/spike_cosim.cc:868-996 | the error logged for a failing check is true of the accesses compared |
| `CosimRuns.MisalignedAccepted` | dv/cosim/spike_cosim.cc:910-948 | a misaligned access split as the load/store unit splits it is accepted byte by byte in address order and leaves the queue entirely |
| `CosimRuns.AlignedAccepted` | dv/cosim/spike_cosim.cc:949-964 | an aligned access is accepted in one check and leaves the queue |
| `CosimRuns.FirstErrorDrains` | dv/cosim/spike_cosim.cc:998-1052 | an error in the first half of a split access is reported at its first byte and removes both halves |
| `CosimRuns.SecondErrorDrains` | dv/cosim/spike_cosim.cc:998-1052 | an error in the second half is reported at its first byte and removes it |
| `CosimRuns.OnlyErrorDrains` | dv/cosim/spike_cosim.cc:998-1052 | an error in a misaligned access within one word is reported at its first byte and removes it |
| `CosimRuns.SameByte` | rtl/ibex_load_store_unit.sv:118-183 | the byte the core carries in a lane is the byte the simulator expects there |
| `LsuCosim.EveryAccessAccepted` | dv/uvm/core_ibex/common/ibex_cosim_agent/ibex_cosim_scoreboard.sv:178-188 | over every run without access errors, with any timing on the bus and the simulator any number of requests and bytes behind: the simulator's next access, on its own memory, is accepted by the checker; once it has caught up its memory is the one the access in progress has found, and the queue holds only the first half of that access, if it has been answered |
| `LsuCosim.CatchesUp` | dv/cosim/spike_cosim.cc:857-1053 | every such run goes on with accesses of the simulator alone until nothing is behind |
| `LsuCosim.SampledIs` | dv/uvm/core_ibex/tb/core_ibex_tb_top.sv:329-335 | the signals sampled at a grant mark the first half, or only part, of a misaligned access and its second half, and nothing else |
| `LsuCosim.ReportedIs` | dv/uvm/core_ibex/common/ibex_mem_intf_agent/ibex_mem_intf_monitor.sv:111-127 | the monitor notifies, at each response, the half that the unit has carried out, with the data that the memory found determines |
| `LsuCosim.CompletedIs` | rtl/ibex_load_store_unit.sv:508-514 | an access that completes without an error leaves memory as the simulator's execution of it does |
| `FetchFifo.RefinesParser` | rtl/ibex_fetch_fifo.sv:68-149 | after any run the accepted instructions, followed by the parse of the words held, are the left-to-right parse of the words received since the clear; the output is the parser's next instruction, exactly if there is one |
| `FetchFifo.OutputIsParse` | rtl/ibex_fetch_fifo.sv:68-149 | valid, data, address and errors of the output are those of the parser on the stored and arriving words |
| `FetchFifo.LengthIs` | rtl/ibex_fetch_fifo.sv:106-149 | an output without an error is two bytes long exactly if the low two bits of its first halfword, the one the address points to, are not both set; with an error it is passed on as four; acceptance moves the address on by that length |
| `FetchFifo.AcceptedConsecutive` | rtl/ibex_fetch_fifo.sv:138-160 | in every run the instructions accepted since a clear follow one another without gap or overlap from where it pointed to the current address |
| `FetchFifo.EntriesStep` | rtl/ibex_fetch_fifo.sv:187-222 | after a cycle the valid entries are a prefix and hold the words not consumed, in order |
| `FetchFifo.LeavesSplitsParse` | rtl/ibex_fetch_fifo.sv:187-222 | no word is lost or duplicated: what is held is an end of what was received |
| `FetchFifo.Registers.Clock` | rtl/ibex_fetch_fifo.sv:224-255 | the arrays, shifted and filled in place, take the values of the cycle function |
| `FetchFifo.Registers.constructor` | rtl/ibex_fetch_fifo.sv:228-233 | out of reset no entry is valid |
| `Zcmp.UnpackOfPack` | rtl/ibex_compressed_decoder.sv:79-149 | instruction fields that fit are read back as they were put together |
| `Zcmp.EncodingMeans` | rtl/ibex_compressed_decoder.sv:79-149 | the encodings built by the helper functions decode to the store, load, addition or jump meant |
| `Zcmp.Registers.Clock` | rtl/ibex_compressed_decoder.sv:550-767 | the registers and outputs of an expansion cycle |
| `Zcmp.Registers.PushCycle` | rtl/ibex_compressed_decoder.sv:553-614 | a cycle of cm.push |
| `Zcmp.Registers.PopCycle` | rtl/ibex_compressed_decoder.sv:616-701 | a cycle of cm.pop, cm.popret and cm.popretz |
| `Zcmp.Registers.MoveCycle` | rtl/ibex_compressed_decoder.sv:703-759 | a cycle of the moves |
| `Zcmp.StackFields` | rtl/ibex_compressed_decoder.sv:552-629 | operation, register list and adjustment read from an encoding of push or pop are those it was made of |
| `Zcmp.MoveFields` | rtl/ibex_compressed_decoder.sv:703-759 | and so are operation and registers of a move |
| `ZcmpMachine.PushSaves` | rtl/ibex_compressed_decoder.sv:79-95 | executing the expansion of cm.push saves every listed register in its slot, inside the frame, lowers sp by the adjustment and changes nothing else |
| `ZcmpMachine.PopUndoesPush` | rtl/ibex_compressed_decoder.sv:97-106 | cm.pop with the same fields restores sp and every listed register from the frame, whatever happened to other registers and memory |
| `ZcmpMachine.PopRetReturns` | rtl/ibex_compressed_decoder.sv:141-149 | cm.popret does so and returns to the saved return address |
| `ZcmpMachine.PopRetZReturnsZero` | rtl/ibex_compressed_decoder.sv:137-139 | cm.popretz does so with zero in a0 |
| `ZcmpMachine.MovesUndo` | rtl/ibex_compressed_decoder.sv:151-163 | cm.mvsa01 and cm.mva01s with the same fields restore a0 and a1, exactly if the two registers differ or a0 equals a1 |
| `ZcmpRun.StepAdvances` | rtl/ibex_compressed_decoder.sv:550-767 | every cycle in which the instruction is presented issues the next operation of its expansion, marked as last only if it is |
| `ZcmpRun.IssuesExpansion` | rtl/ibex_compressed_decoder.sv:550-767 | under every stall pattern the operations taken are the beginning of the expansion of the instruction's own fields, and the last is marked exactly once |
| `ZcmpRun.AdjustmentAgrees` | rtl/ibex_compressed_decoder.sv:42-64 | the stack adjustment is the frame for the listed registers, rounded up to 16 bytes, plus the immediate |
| `ZcmpRun.TopIsListed` | rtl/ibex_compressed_decoder.sv:66-77 | counting down the internal list names the listed registers from the last to ra |
| `ZcmpRun.ReservedIsIllegal` | rtl/ibex_compressed_decoder.sv:565-567 | a register list below 4 is rejected, and no other |
| `ZcmpRun.OthersAreIllegal` | rtl/ibex_compressed_decoder.sv:552-767 | an encoding that is none of the instructions is rejected; a move, or an expansion under way, never is |
| `ZcmpRun.InvalidWaits` | rtl/ibex_compressed_decoder.sv:196-205 | nothing starts while the instruction is not valid |
| `ZcmpRun.RoundTrip` | rtl/ibex_compressed_decoder.sv:554-701 | push, then any form of pop with the same list and adjustment, both under any stalls, restores sp and every listed register; the returning forms return, and cm.popretz with zero |
| `Pmp.ConfigStored` | rtl/ibex_cs_registers.sv:1175-1224 | a write to an entry's configuration stores lock, mode, execute, write and read of its byte, unless the entry is locked or lockdown forbids the rule; nothing else changes it |
| `Pmp.AddressStored` | rtl/ibex_cs_registers.sv:1227-1249 | a write to an entry's address stores the number written, in granules, unless the entry is locked or the lower end of a locked TOR entry; nothing else changes it |
| `Pmp.PoliciesStored` | rtl/ibex_cs_registers.sv:1256-1269 | a write to mseccfg sets the policies it asks for, and the bypass exactly if it asks for it and nothing is locked |
| `Pmp.LockPersists` | rtl/ibex_cs_registers.sv:1178-1236 | once an entry is locked without the bypass, after any writes the bypass is off and its configuration, address and, in TOR mode, the address below are unchanged |
| `Pmp.PoliciesAreSticky` | rtl/ibex_cs_registers.sv:1259-1261 | MML and MMWP once set stay set |
| `Pmp.ExecRulesConstant` | rtl/ibex_cs_registers.sv:1220-1224 | while MML is set and RLB clear the set of locked M-mode executable entries does not change |
| `Pmp.LockedBypassStaysOff` | rtl/ibex_cs_registers.sv:1263-1269 | with a locked entry RLB stays clear in every later state |
| `Pmp.BypassReturnsUnlessLocked` | rtl/ibex_cs_registers.sv:1263-1269 | a write can set RLB exactly if no entry is locked |
| `Pmp.ReservedNeverStored` | rtl/ibex_cs_registers.sv:1197-1201 | while MML is clear no entry is writable without being readable |
| `Pmp.ResetIsLegal` | rtl/ibex_pkg.sv:749-790 | the reset values satisfy that |
| `Pmp.Registers.Clock` | rtl/ibex_cs_registers.sv:1173-1282 | the registers take the values of the write rules |
| `Pmp.Registers.AnyEntryLocked` | rtl/ibex_cs_registers.sv:1265 | the reduction over the lock bits |
| `Traps.ReachablePrivileges` | rtl/ibex_cs_registers.sv:752-855 | in every reachable state the privilege and its stored copies are M or U |
| `Traps.NmiEntry` | rtl/ibex_controller.sv:408-414 | a non-maskable interrupt is taken only outside debug and NMI mode, and saves the fetch program counter |
| `Traps.NmiIsTransparent` | rtl/ibex_cs_registers.sv:780-842 | NMI entry and mret restore privilege, mie, mpie, mpp, mepc and mcause and resume at the interrupted address; mprv exactly if the code ran in M-mode or it was clear |
| `Traps.TrapReturns` | rtl/ibex_cs_registers.sv:780-842 | an ordinary trap and mret restore privilege and mie and resume; mpie is set and mpp is U |
| `Traps.OneFaultRecovers` | rtl/ibex_cs_registers.sv:794-795 | after one exception inside the NMI handler two mrets still recover privilege, mie and the interrupted address |
| `Traps.HandlerReturns` | rtl/ibex_cs_registers.sv:780-842 | whatever exceptions, further NMIs and returns an NMI handler goes through, in any order: with at most one exception privilege, mie and address are recovered; with more the last return leads to U-mode with mie set, at an address saved in the handler |
| `Traps.LastAddress` | rtl/ibex_cs_registers.sv:827-841 | which address that is: the one saved by the last trap, if that was an exception outside NMI mode, and otherwise the one current when it was taken |
| `Traps.RecoversExactly` | rtl/ibex_cs_registers.sv:780-842 | so the code is recovered exactly if there was at most one exception, or it was in U-mode with mie set at that address |
| `Traps.LastRepeats` | rtl/ibex_cs_registers.sv:833-841 | with more than one exception and no further NMI the last return leads where the one before it led |
| `Traps.EffectsAre` | rtl/ibex_cs_registers.sv:780-842 | over any such sequence of cycles the registers are those of the two-level stack |
| `TrapStack.GoesAstray` | rtl/ibex_cs_registers.sv:833-841 | on the stack alone: with two exceptions or more the last return leads to an address saved in between, in U-mode |
| `TrapStack.LandsAt` | rtl/ibex_cs_registers.sv:827-841 | and to which, by the last event that is not a return |
| `TrapStack.ComesBack` | rtl/ibex_cs_registers.sv:827-832 | with at most one, both levels are given back |
| `Traps.AtMostTwoOpen` | rtl/ibex_id_stage.sv:537-539 | a handler that is left, with mret executed in M-mode only, has at no time more than two traps open |
| `Traps.EverythingHappens` | rtl/ibex_controller.sv:728-804 | every sequence of exceptions, NMIs outside NMI mode, and returns executed in M-mode is what some cycles do |
| `Traps.LostFromReset` | rtl/ibex_cs_registers.sv:833-841 | for every such sequence with two exceptions or more that leaves a handler, a run from reset in which the handler goes through it and the M-mode code interrupted is lost |
| `Traps.WaysToLose` | rtl/ibex_cs_registers.sv:833-841 | among them two exceptions nested, one after the other, and one each in the handler and in that of a further NMI |
| `Traps.MprvLostFromReset` | rtl/ibex_cs_registers.sv:811-822 | a run from reset, by way of debug mode, in which code in U-mode loses mprv to an NMI |
| `Traps.DebugIsTransparent` | rtl/ibex_cs_registers.sv:769-813 | debug entry and dret restore the privilege and leave all trap registers as they were, exceptions in debug mode included, and resume at the saved address |
| `Traps.QuietKeeps` | rtl/ibex_cs_registers.sv:600-641 | cycles without traps, returns or writes to the stack registers leave them alone |
| `Traps.ClearedWhenReported` | rtl/ibex_controller.sv:320-341 | the integrity latch is cleared in exactly the cycle an internal NMI is taken, with its address in mtval and the integrity cause; it stays through external NMIs, NMI mode and debug mode |
| `Traps.NothingToReport` | rtl/ibex_controller.sv:401-403 | no internal NMI is taken without a latched error |
| `Traps.EveryErrorReportedOnce` | rtl/ibex_controller.sv:312-357 | over every run the reports are the latched errors in order, each once, with at most the last pending |
| `Traps.ReportsFromReset` | rtl/ibex_controller.sv:312-357 | in particular for every run from reset |
| `TrapEntry.EnabledIsTaken` | rtl/ibex_controller.sv:405-414 | from rest a pending maskable interrupt is taken in two cycles, with its address, cause and saved state, exactly if the privilege is U or mie is set |
| `TrapEntry.MaskedStaysOut` | rtl/ibex_controller.sv:405-414 | in any state it is taken only then, and only outside debug mode, NMI mode and single-stepping |
| `TrapEntry.NmiIsTaken` | rtl/ibex_controller.sv:637-656 | from rest an external NMI is taken in two cycles, whatever is enabled, with its cause |
| `TrapEntry.ErrorIsTaken` | rtl/ibex_controller.sv:637-656 | and so is one for a memory error, with the address latched; the latch is free again |
| `TrapEntry.Taken` | rtl/ibex_controller.sv:637-675 | when an interrupt is taken external NMIs come first, then memory errors, then maskable interrupts, and all registers are as a trap leaves them |
| `TrapEntry.AtRest` | rtl/ibex_controller.sv:592-612 | between instructions debug requests come before interrupts, and nothing happens without either |
| `TrapEntry.AtFirstFetch` | rtl/ibex_controller.sv:535-562 | and so it is before the first instruction |
| `TrapEntry.DebugIsEntered` | rtl/ibex_controller.sv:680-698 | a debug request at rest is answered in two cycles, before any interrupt, with the address and privilege saved |
| `TrapEntry.StepsOnce` | rtl/ibex_controller.sv:381 | an instruction executed in single-step mode is followed by debug mode, at the address of the next |
| `TrapEntry.FaultIsTaken` | rtl/ibex_controller.sv:728-806 | an exception in ID is taken in two cycles, with its own address, cause and value |
| `TrapEntry.AccessFaultIsTaken` | rtl/ibex_controller.sv:744-750 | an error of the access in writeback is taken before it, with the address of the access instruction |
| `TrapEntry.ExceptionIsTaken` | rtl/ibex_controller.sv:728-806 | whatever else is asked for, the exception is saved first; in debug mode only the privilege changes |
| `TrapEntry.EbreakEnters` | rtl/ibex_controller.sv:702-726 | an ebreak that is to enter debug mode does, with its own address unless executed in debug mode |
| `TrapEntry.OthersAreExecuted` | rtl/ibex_controller.sv:807-832 | without an exception mret, dret and wfi take effect, in that order of precedence |
| `TrapEntry.SleepsOn` | rtl/ibex_controller.sv:511-533 | asleep the core stays so, with its registers, as long as there is no interrupt, enabled or not, no debug request and no stepping |
| `TrapEntry.Sleeps` | rtl/ibex_controller.sv:524-533 | and wakes as soon as there is one |
| `TrapCsrs.WrittenExists` | rtl/ibex_cs_registers.sv:645-710 | a write by an instruction changes its own register alone, and stores only halfword addresses and privileges that exist |
| `TrapCsrs.Registers.Clock` | rtl/ibex_cs_registers.sv:600-846 | the instruction's write first, then the trap or return over it, field by field |
| `TrapCsrs.Registers.Instruction` | rtl/ibex_cs_registers.sv:645-710 | the writes by CSR instructions, with unsupported privileges turned into U |
| `TrapCsrs.Registers.Trap` | rtl/ibex_cs_registers.sv:755-809 | what a trap saves |
| `TrapCsrs.Registers.Return` | rtl/ibex_cs_registers.sv:815-842 | what mret restores, in and out of NMI mode |
| `TrapCsrs.Registers.constructor` | rtl/ibex_cs_registers.sv:902-906 | the reset values |
| `Controller.Registers.Clock` | rtl/ibex_controller.sv:873-896 | the controller's registers take the values of the cycle function |
| `Controller.Registers.Decide` | rtl/ibex_controller.sv:453-844 | the state machine's next state, NMI mode and debug mode |
| `Controller.Registers.FlushState` | rtl/ibex_controller.sv:728-832 | the flush state: exceptions, returns, sleep, and the debug override |
| `Controller.Registers.Latch` | rtl/ibex_controller.sv:320-351 | the latch for memory integrity errors |

## Left out

- Error-correcting codes, in the cache and on the bus: an error is an input that may be raised in any cycle, and what the codes detect is not modelled.
- Tweak infection, shadow copies of registers, reset variants, and the coverage and trace signals: they add width, not behaviour.
- Instruction cache, `busy_o` and the scramble key request: outputs that nothing in the module depends on.
- ICacheRun.Transparent: says nothing about an instruction after the first accepted error until the next branch, nor about the data shown with an error; the design promises nothing there.
- Generalised reverse and or-combine of the ALU: stages under a control, like those of `Shuffle` but without the flip.
- Crossbar, pack, sign extension, single-bit and bit-field operations of the ALU: multiplexers without loops or state.
- Traps.HandlerReturns: visits to debug mode are not among the events of a handler; `Traps.DebugIsTransparent` says that they leave the trap registers alone.
- Adder, comparator and min/max of the ALU: plain arithmetic.
- Multiplication and division units, branch prediction, dummy instructions, register files, counters: not part of this model.
- Performance signals of the load/store unit: outputs only.
- One-hot multiplexers of the cache: modelled as the choice of the buffer granted; `ICacheAge.ArbitersOneHot` says there is at most one.
- LsuRun.EveryRun: a fair bus is not assumed, so it does not say that a response comes; `LsuRun.Progress` and `LsuRun.NeverStuck` say that each step the bus takes leads there.
- ICacheLive.WordArrives: nor is a fair bus assumed here; and when no buffer is pending, the lookup that starts the next waits for a free buffer and for the RAMs, which is not counted.
- LsuCosim.EveryAccessAccepted: runs with access errors, after which the simulator traps, are not joined with the unit; `CosimRuns.FirstErrorDrains`, `CosimRuns.SecondErrorDrains` and `CosimRuns.OnlyErrorDrains` are about the checker alone.
- Fetch FIFO fill level output: `busy_o` is the upper part of the valid bits.
- FetchFifo.OutputIsParse: the upper half of the data shown with a compressed instruction is not constrained, as the consumer does not look at it.
- Co-simulation: stepping the simulator, interrupts, CSR fixups and the instruction side need the simulator's own source, which is not part of this model. Error texts are modelled by their kind. Byte enables have four bits.
- Controller: instruction fetch control, branches, performance signals and the choice among exception causes and maskable interrupt causes; causes and trap values of exceptions are inputs.
- Registers that traps do not use (mtvec, mscratch, counters, triggers, CPU control and double-fault status): not part of this model.
- Decoding the other compressed instructions: one-to-one translations.
- Pipeline refinement across stages: it needs the writeback and fetch stages together with everything above.
