# A verified model of the Cyclone cache core

Cyclone is a multi-process disk cache. Its index lives in shared memory, its writers take
turns through hand-built locks that survive crashed and usurped holders, its documents carry
a CRC-32C, and a C bridge coalesces the cache misses of asynchronous readers. This project
models those parts in Dafny and proves what each is there to guarantee.

Protocols are transition systems over any number of processes or threads. One step is one
shared-memory access, or one critical section of a mutex where the code holds one; a run is
any sequence of such steps from the initial state, and the theorems speak of every state of
every run. Shared memory is sequentially consistent. Algorithms that work in place are
methods with loops, or classes, proved against a function of their input.

| component | modules |
|---|---|
| CRC-32C: definition and linearity, generator polynomial and check value, slice-by-16, three-way hardware path | `Folds`, `Bitwise`, `WordBits`, `Crc32c`, `Crc32cPolynomial`, `Crc32cCheck`, `Crc32cSlice`, `Crc32cHardware` |
| token lock: recovery of dead holders; revalidation under usurpation | `TokenLock`, `DeadRecovery`, `Revalidation`, `WriteLockRelease`, `RevalidationLimits` |
| bucket seqlock, fork gate, bounded wait | `Seqlock`, `ForkGate`, `LockWait` |
| directory: stored entries, victim choice, insert and remove, conditional publish | `DirectoryEntry`, `Bucket`, `Directory`, `Publish` |
| miss coalescing in the C bridge | `WaiterLedger`, `MissBridge`, `MissBridgeRuns` |
| sharded cache gate and three-phase stop | `CacheGate`, `CacheGateLife` |
| hit counting | `HitTracker` |
| SHA-256, document format | `Sha256Spec`, `Sha256Words`, `Sha256Constants`, `Sha256KnownAnswer`, `Sha256Context`, `FieldTable`, `Document`, `DocumentChanges`, `DocumentBuilder` |
| clean-frontier retention ring and wrap flush | `FrontierRetain` |
| counting, shared by the protocols | `Counting` |

## What does not hold as stated

Seven statements of the code or its comments are false as they stand. Each has a witness and
an exact condition.

- The document header says a change to any covered field fails verification
  (`src/core/document.hpp:213-216`). For every field but the length that holds exactly when the
  field is at most four bytes wide; a change of the total length or of a key can pass
  (`DocumentChanges.ChangesDetected`). The length is four bytes wide, but a reader takes the
  payload it verifies from it, and a change can pass exactly when the bytes it cuts off or adds
  make up for it (`DocumentChanges.ShorterLength`, `DocumentChanges.LongerLength`, witness
  `DocumentBuilder.LengthSlips`). Where a read path also demands the volume shape, only a change
  of a key can pass (`DocumentChanges.ServedChange`).
- The directory's entry count is exact after an insert if and only if the offset does not
  truncate to 0 in the 40 bits of an entry (`Directory.Dir.Insert`,
  `Directory.TruncatedOffsetMiscounts`).
- The retention ring's residents are a suffix of its insertions, and with one chunk it hits as
  the wrap flush does, unless the key equal to its empty marker was inserted and its pass is over
  (`FrontierRetain.ResidentsAreSuffix`, `FrontierRetain.AccessBoth`,
  `FrontierRetain.MarkerNeverLeaves`).
- The hit tracker's header says its entry counter is exact and kept under the stripe's mutex
  (`src/core/hit_tracker.hpp:218-223`). A full sweep subtracts after releasing it, so the counter
  can run ahead (`HitTracker.CounterRunsAhead`); it is exact if and only if as many entries are
  removed and not yet subtracted as are emplaced and not yet counted (`HitTracker.CounterBalance`).
- The write lock's comments say that a recovered holder fails its revalidation, and that a wrap of
  the 16-bit generation is caught unless another holder has the same PID
  (`src/core/mmap_directory.cpp:1774-1777`, `src/core/mmap_directory.cpp:1926-1933`). A holder
  recovered before it stored its PID stores it afterwards and can pass after a full turn of the
  register, beside the current holder (`RevalidationLimits.RecoveredPassesAgain`). One recovered
  after its store never passes again (`Revalidation.RecoveredNeverRevalidates`); every other passes
  only by such a late store and a full turn (`Revalidation.RecoveredPasses`), and a revalidation
  passes if and only if the three conditions of `Revalidation.PassesExactly` hold.
- The comments also say that while a process has the byte only a recovery of the lock from it can
  bump the generation, so that a changed generation means the lock was recovered from it
  (`src/core/mmap_directory.cpp:167-169`, `src/core/mmap_directory.cpp:1920-1923`). An acquirer
  recovered before its claim still claims later: that makes the release of the next holder, whom
  nobody recovered, leave the byte held (`RevalidationLimits.LateClaimStrands`), and tells another
  acquirer that it lost the byte it has (`RevalidationLimits.ToldLostUnrecovered`). A late store of
  a PID strands the byte as well (`RevalidationLimits.LateStoreStrands`). The exact conditions are
  `WriteLockRelease.ReleaseFreesExactly` and `WriteLockRelease.ToldLostExactly`. What a release needs
  when the PID is stored is that no other process is in one of the positions of
  `WriteLockRelease.Disturbs`: then it frees the byte in every run in which no recovery claims it
  (`WriteLockRelease.QuietUntilFreed`), and if one is, some run makes it give up
  (`RevalidationLimits.DisturbedGivesUp`).
- The release's comment says that a recovery between its revalidation and its CAS makes the CAS a
  no-op, as the usurper's token differs (`src/core/mmap_directory.cpp:1954-1957`). With liveness
  slots two generations can share a token, and the late CAS frees the usurper's byte and admits a
  third writer (`RevalidationLimits.LateReleaseFreesUsurper`); it does so if and only if its value
  decodes to the usurper's slot under the usurper's generation or, for a usurper without a slot, is
  that generation's plain token (`WriteLockRelease.LateRelease`).

Where code and comment differ, the model follows the code: `Document::has_volume_shape` calls
the length fields uncovered, while the checksum covers them since format version 9.

## Model

| member | source | states |
|---|---|---|
| Crc32c.UpdateConcat | src/core/crc32c.hpp:32-37 | updating over a and then b, from any state, is updating over a ++ b, and an empty chunk changes nothing |
| Crc32c.CrcXor | src/core/crc32c.cpp:173-187 | the CRC register is linear over GF(2): the register of the xor of two inputs is the xor of their registers, for any starting registers |
| Crc32c.CrcSplit | src/core/crc32c.cpp:173-187 | a register advanced over data is the register advanced over as many zero bytes, xored with the data's register from zero |
| Crc32c.CrcLe | src/core/crc32c.cpp:147-169 | any bytes may enter the register at once, as one little-endian integer |
| Crc32c.BurstDetected | src/core/crc32c.hpp:13-30 | two inputs whose difference lies within 32 bits, starting at any bit of any byte, have different CRCs, whatever surrounds it |
| Crc32c.ShortWindowDetected | src/core/crc32c.hpp:13-30 | so do two inputs that differ only inside one window of at most four bytes |
| Crc32c.WindowUndetected | src/core/crc32c.hpp:13-30 | a change inside a window of any width leaves the CRC as it was if and only if the window's difference, run from an empty register, leaves it empty |
| Crc32c.WindowDifference | src/core/crc32c.cpp:173-187 | the difference a window makes to the register depends only on the window's difference and on how many bytes follow |
| Crc32c.BridgeConnects | src/core/crc32c.hpp:13-30 | four bytes, computed by running the register backwards, take any register to any other |
| Crc32cPolynomial.CrcIsRemainder | src/core/crc32c.cpp:101-119 | the register over a message, its bits reversed, is the remainder of x^32 times the message polynomial, with the start value in front, modulo the Castagnoli generator written unreflected as in RFC 3720, 0x11EDC6F41 |
| Crc32cPolynomial.OneRemainder | src/core/crc32c.cpp:101-119 | there is only one such remainder of degree below 32 |
| Crc32cCheck.CheckValue | src/core/crc32c.hpp:13-30 | the public interface gives the standard's check value 0xE3069283 for "123456789" |
| Crc32cSlice.MakeSliceTables | src/core/crc32c.cpp:112-128 | row s of the table built row by row is the register of each byte followed by s zero bytes |
| Crc32cSlice.CrcByteTableIsCrcByte | src/core/crc32c.cpp:167-169 | the one-lookup byte step is eight bit steps, for every register and byte |
| Crc32cSlice.Lookup4IsBits | src/core/crc32c.cpp:292-317 | four lookups in four adjacent rows advance any 32-bit word over the bytes it stands for |
| Crc32cSlice.Slice16IsCrc | src/core/crc32c.cpp:292-307 | the sixteen lookups of one iteration are sixteen byte steps |
| Crc32cSlice.Slice8IsCrc | src/core/crc32c.cpp:308-317 | the eight lookups of the eight-byte phase are eight byte steps |
| Crc32cSlice.SliceBy16 | src/core/crc32c.cpp:284-324 | for every register, data and alignment the head, 16-byte, 8-byte and tail phases give the byte-at-a-time CRC |
| Crc32cHardware.Gf2Apply | src/core/crc32c.cpp:196-204 | the early-exit loop xors exactly the columns that the set bits of the vector select |
| Crc32cHardware.ApplyAdvances | src/core/crc32c.cpp:189-204 | a matrix whose columns are where each bit goes advances every 32-bit register as a whole |
| Crc32cHardware.Gf2Compose | src/core/crc32c.cpp:208-214 | the product of the operators for i and j zero bits is the operator for i + j |
| Crc32cHardware.ZeroBitOperator | src/core/crc32c.cpp:220-229 | the matrix written down column by column advances by one zero bit |
| Crc32cHardware.ZeroBytesOperator | src/core/crc32c.cpp:232-245 | binary exponentiation gives the operator for n zero bytes, for every n |
| Crc32cHardware.MakeShiftTable | src/core/crc32c.cpp:249-259 | the 4x256 table holds the operator's image of every byte at every position |
| Crc32cHardware.ShiftCrcAdvances | src/core/crc32c.cpp:273-276 | four lookups apply that operator to any register |
| Crc32cHardware.CombineThree | src/core/crc32c.cpp:173-183 | three registers over adjacent blocks of equal length combine into the register of the concatenation |
| Crc32cHardware.ThreeWayBlock | src/core/crc32c.cpp:386-401 | one interleaved block step gives the CRC of its three blocks |
| Crc32cHardware.Tail | src/core/crc32c.cpp:456-472 | eight-, four- and one-byte instructions finish any remainder exactly |
| Crc32cHardware.ThreeWay | src/core/crc32c.cpp:379-419 | for every register, data and alignment the aligned head, long blocks, short blocks and tail give the byte-at-a-time CRC |
| Crc32cHardware.UpdateHardware | src/core/crc32c.cpp:594-606 | the public update over the hardware path, with its complements, equals the incremental definition |
| TokenLock.SlotTokenRoundTrip | src/core/mmap_directory.cpp:97-117 | a slot token decodes to its slot under every generation, stays in 2..253 and is never the plain token |
| TokenLock.SlotOfTokenIsExact | src/core/mmap_directory.cpp:103-117 | a lock value decodes to a slot only if that slot's holder stores it; free, plain and recovery values decode to none |
| DeadRecovery.InvStep | src/core/mmap_directory.cpp:186-247 | every step of acquire, release, crash and recovery keeps: the byte has one owner, and byte and generation are what the owner's position says |
| DeadRecovery.AtMostOneHolder | src/core/mmap_directory.cpp:186-247 | with only dead holders recovered, at most one live process is between winning and freeing the byte in every state of every run, a recovery's generation check and claim being two steps, and none that won its CAS is told it lost |
| DeadRecovery.ReleaseFrees | src/core/mmap_directory.cpp:1697-1713 | a live holder's release always frees the byte |
| DeadRecovery.CrashIsRecoverable | src/core/mmap_directory.cpp:229-247 | a live process can free the byte of any dead holder or dead recoverer by itself, retiring one generation |
| Revalidation.OneStep | src/core/mmap_directory.cpp:186-247 | every step leaves the others' generations alone and gives its process only the one it had or a fresh one |
| Revalidation.GenerationCheck | src/core/mmap_directory.cpp:1919-1936 | the 16-bit check passes exactly when the bumps since the claim are a multiple of 65536 |
| Revalidation.RecoveryBars | src/core/mmap_directory.cpp:229-247 | a recovery's clearing of the owner word, and another process's store of its PID, bar every other holder that has stored its own PID, in mid-revalidation, in a passed one or in none |
| Revalidation.BarredStep | src/core/mmap_directory.cpp:1919-1971 | every step keeps the bar until the holder gives up, gives it no new verdict, and none of the holder's own steps, its release included, touches byte, generation or owner |
| Revalidation.RecoveredNeverRevalidates | src/core/mmap_directory.cpp:1919-1971 | along every run a holder whose owner word a recovery cleared after the holder stored its PID never passes again, keeps at most a verdict it already had, and no release of it takes effect, with no bound on generation bumps |
| Revalidation.RecoveredPasses | src/core/mmap_directory.cpp:1926-1942 | along every run a process recovered at any point after it claimed its generation passes again only if it stored its PID after the recovery had cleared the owner and loaded the generation after a whole number of turns of the register since its claim, at least one |
| Revalidation.PassesExactly | src/core/mmap_directory.cpp:1919-1948 | a revalidation passes if and only if the bumps were a multiple of 65536 at its generation load, the byte held its value at its byte load, and no other process stored in the owner word between its own store and its owner load |
| Revalidation.OwnerStands | src/core/mmap_directory.cpp:1944-1946 | a holder's PID is in place if and only if no other process stored its PID or cleared the owner since |
| WriteLockRelease.ToldLostExactly | src/core/mmap_directory.cpp:198-222 | an acquirer that won its CAS is told it lost if and only if the bumps between its re-read and its claim are no multiple of 65536, or its token has to move and the byte has left the provisional one; otherwise it holds the token of the generation it claimed |
| WriteLockRelease.NotToldLost | src/core/mmap_directory.cpp:167-181 | with no other process late at its re-read, an acquirer whose byte keeps the provisional token is not told it lost and claims the next generation |
| WriteLockRelease.ReleaseFreesExactly | src/core/mmap_directory.cpp:1950-1971 | a release passes if and only if the bumps were a multiple of 65536 at its generation load, the byte was the holder's at its byte load and no other process stored in the owner word; while the byte stays the holder's it is freed if and only if the other two hold, and otherwise left held |
| WriteLockRelease.OnlyLateOverwrite | src/core/mmap_directory.cpp:186-247 | while the byte keeps one value, no other process bumps the generation or stores in the owner word unless one was already past its CAS, and its claim not refuted, or past a recovery's claim |
| WriteLockRelease.QuietUntilFreed | src/core/mmap_directory.cpp:1919-1971 | a holder whose checks succeed and whom no other process is in a position to disturb keeps byte, generation and owner, passes every check and frees the byte by its release, in every run in which no recovery claims the byte |
| WriteLockRelease.LateRelease | src/core/mmap_directory.cpp:1950-1971 | a release that passed before a recovery frees the next holder's byte if and only if its value decodes to that holder's slot under that holder's generation, or, when that holder has no slot, is the generation's plain token; without slots on either side, if and only if the registers of the two generations agree modulo 253 |
| RevalidationLimits.DisturbedGivesUp | src/core/mmap_directory.cpp:1919-1971 | wherever some process is in such a position, the run can go on so that no recovery claims the byte and the holder's release gives up |
| RevalidationLimits.LateClaimStrands | src/core/mmap_directory.cpp:1920-1923 | a run in which the late claim of a recovered acquirer makes the release of a holder, whose byte is its own throughout, give up and leave the byte held |
| RevalidationLimits.ToldLostUnrecovered | src/core/mmap_directory.cpp:167-173 | a run in which the same late claim makes an acquirer, whose byte keeps its token throughout, be told it lost |
| RevalidationLimits.RecoveredPassesAgain | src/core/mmap_directory.cpp:1926-1933 | a run in which a recovered holder and the current holder are both in a passed revalidation |
| RevalidationLimits.LateStoreStrands | src/core/mmap_directory.cpp:1950-1962 | a run, with no turn of the register, in which the release of a holder that was never recovered leaves the byte held |
| RevalidationLimits.LateReleaseFreesUsurper | src/core/mmap_directory.cpp:1950-1971 | a run in which the late release of a recovered holder frees the next holder's byte, and a third process passes while that one is in a passed revalidation |
| Revalidation.OwnerThroughout | src/core/mmap_directory.cpp:1926-1948 | a holder that finds its PID in place had it in place since it published it |
| Revalidation.PassesExclude | src/core/mmap_directory.cpp:1919-1948 | the holds of two processes that pass a stepwise revalidation, each from the publication of its PID to the moment it passes, never overlap, with live holders usurped at any instruction |
| Revalidation.PassedWhenCurrent | src/core/mmap_directory.cpp:1919-1942 | a revalidation that goes well or has passed loaded the generation in a state of the run where its own was current and no other process's was, short of a full turn of the register in one hold |
| Revalidation.RetireDooms | src/core/mmap_directory.cpp:229-247 | already the generation bump dooms every process that has claimed a generation, PID stored or not, if and only if it is not inside a revalidation that has found its generation current |
| Revalidation.DoomedStep | src/core/mmap_directory.cpp:1950-1971 | a doomed process stays doomed at a step unless it gives up or loads the generation while the register shows its own; once its PID is stored none of its steps, its release included, touches byte, generation or owner |
| Revalidation.RetiredNeverRevalidates | src/core/mmap_directory.cpp:1919-1971 | a doomed process cannot pass until it has given the lock up, along every run in which no generation load of its own finds the register showing its generation |
| Seqlock.HandedEntryIsWhole | src/core/directory.hpp:659-730 | an entry handed to a probe callback, copied word by word, is the whole content of its slot at the instant of its recheck, under an even version, unless a forced-out holder overwrote one of its own words after that word was copied |
| Seqlock.CompleteScanIsExact | src/core/directory.hpp:659-730 | a completed scan handed out, of the slots no forced-out holder overwrote under it, exactly those that matched at one instant; none handed out means none was there |
| Seqlock.OddVersionHasOneOwner | src/core/mmap_directory.cpp:2002-2110 | an odd version belongs to exactly one writer, the one that took that value |
| Seqlock.ForcedOutReleaseIsNoOp | src/core/mmap_directory.cpp:2155-2168 | the release of a holder that was forced out changes neither version nor entries, however late |
| Seqlock.ReleaseFrees | src/core/mmap_directory.cpp:2155-2168 | the release of a holder that was not forced out, and a forced release, leave the version even |
| Seqlock.WriterAlone | src/core/mmap_directory.cpp:2002-2168 | a writer alone in an even bucket takes it, stores and gives it back: only its word differs, and the version is two more |
| Seqlock.ScanCompletes | src/core/directory.hpp:659-730 | a scan whose version still stands, however far it has come, completes by its own steps alone |
| Seqlock.UsurpedStoreTears | src/core/mmap_directory.cpp:2074-2084 | that exception is real: a run from the start in which a holder is forced out and stores late, and a reader passes its recheck with an entry its slot held at no instant |
| ForkGate.NoPassDuringFork | src/core/mmap_directory.cpp:473-512 | from the end of a fork's prepare handler to its parent handler no thread is inside a pass, for any number of threads, nested passes and concurrent forks |
| ForkGate.EntersExactly | src/core/mmap_directory.cpp:589-594 | an announced pass goes ahead exactly when no thread outside a pass is forking |
| ForkGate.QuiescesExactly | src/core/mmap_directory.cpp:473-497 | a prepare handler goes on exactly when no thread is inside a pass or announced |
| ForkGate.WaitingIsNotCounted | src/core/mmap_directory.cpp:580-604 | a thread waiting for a fork contributes nothing to the active count |
| ForkGate.ChildStartsCorrect | src/core/mmap_directory.cpp:507-512 | whatever state a fork copies, the counters the child handler stores are the true counts of the one-thread child, with the mutex free and the epoch moved |
| ForkGate.InheritedCountIsWrong | src/core/mmap_directory.cpp:498-512 | a run that ends in a fork whose inherited active count is wrong for the child, which is why the handler stores and does not decrement |
| LockWait.LockHolderWait.Wait | src/core/directory.hpp:477-549 | on every monotone clock, from the log of attempts alone: every 64th sighting of the watched holder reads the clock; it sleeps exactly when that read is past the spin window and inside the budget; it expires exactly when an earlier read of the same sighting was past window and budget and a confirmation window has gone by since; it gives up exactly on a holder change once departed holders' time reaches the cap, never behind a single holder |
| LockWait.StuckHolderExpires | src/core/directory.hpp:477-549 | a holder seen at every attempt is reported expired at a clock read at least a confirmation window after one past its deadline and past every spin window before it |
| LockWait.LockHolderWait.TimedWait | src/core/directory.hpp:529-549 | spin, sleep, start of confirmation or expiry, each exactly when due; expiry only a whole confirmation window past the deadline |
| LockWait.LockHolderWait.Restart | src/core/directory.hpp:490-495 | a free lock ends the sighting and adds the time spent on it |
| LockWait.WatchedThroughout | src/core/directory.hpp:442-445 | the holder being watched was seen at every attempt since its first sighting, with no restart between |
| LockWait.StuckHolderCountsNothing | src/core/directory.hpp:447-456 | a holder that never lets go adds nothing to the time counted against the cap |
| Bucket.ChooseInsertSlot | src/core/directory.cpp:264-337 | the one-pass chooser returns the declarative choice: the key's own entry, the same offset, a free slot, a dead one, a collider, the oldest retained, the oldest current |
| Bucket.FirstIsFirst | src/core/directory.cpp:264-337 | the candidate of a kind is the first slot that plays it |
| Bucket.OldestIsOldest | src/core/directory.cpp:300-337 | the eviction candidate of a kind has the lowest offset of its kind, the first of equal ones |
| Bucket.FirstVictims | src/core/directory.cpp:264-337 | over the entries themselves: the key's own entry is taken first, else one at the offset just written, else a free slot, else a dead one, each the first of its kind and only when there is none before it |
| Bucket.LastVictims | src/core/directory.cpp:322-337 | a live entry is lost exactly when every slot holds one and none is the key's own or at the offset just written; the first of the same tag goes, and another only when no tag collides |
| Bucket.InsertIsUnique | src/core/directory.cpp:375-464 | an insert of a valid offset leaves exactly one same-tag entry at that offset, with the given fields, and no other at a cleared offset |
| Bucket.InsertLosesAtMostOne | src/core/directory.cpp:375-464 | every other admitted entry survives untouched but at most one, and that only when no slot is free or dead; its loss is reported by exactly one flag; when nothing collides it is the oldest retained, else the oldest current |
| Bucket.PublishViewIsCurrent | src/core/directory.cpp:339-373 | the loop decides whether the bucket still shows what the writer saw |
| Directory.InsertInto | src/core/directory.cpp:409-462 | the slot-by-slot insert yields the specified bucket and its count delta is off by exactly one entry when the truncated offset is empty, and exact otherwise |
| Directory.TruncatedOffsetMiscounts | src/core/directory.cpp:409-462 | an insert at offset 2^40 counts an entry the bucket does not hold |
| DirectoryEntry.OffsetSet | src/core/directory.cpp:75-86 | writing the offset changes the offset, truncated to 40 bits, and no other field of the packed words |
| DirectoryEntry.PackSize | src/core/directory.cpp:143-164 | the size code rounds a length up by less than one unit of the smallest scale that fits, and saturates |
| DirectoryEntry.DecodePacked | src/core/directory.cpp:75-141 | an entry packed field by field from zero and stored as ten bytes reads back as it was, when its fields fit |
| Directory.LegacyVictim | src/core/directory.cpp:466-515 | the insert without admission picks a slot of the best rank, oldest within it |
| Directory.RemoveAtFrom | src/core/directory.cpp:623-648 | every entry with the tag at the offset goes, nothing else changes, and the number removed is exact |
| Directory.Dir.constructor | src/core/directory.cpp:168-173 | an empty directory counts zero entries |
| Directory.Dir.WriteBucket | src/core/directory.cpp:184-203 | one odd-even bracket replaces one bucket, leaves every other entry alone and raises its version by two |
| Directory.Dir.Insert | src/core/directory.cpp:375-464 | publishes exactly when the view is current and otherwise changes nothing; the bucket is the specified one; the count stays exact if and only if the offset does not truncate to 0 |
| Directory.Dir.InsertLegacy | src/core/directory.cpp:466-602 | replaces the legacy victim by an entry with the given fields, a victim's pinned flag not inherited when a live entry is evicted, reports its loss by rank, and keeps the count exact if and only if the offset does not truncate to 0 |
| Directory.Dir.RemoveAt | src/core/directory.cpp:623-648 | removes the tag at the offset, says so exactly when there was one, keeps the count exact |
| Directory.Dir.Remove | src/core/directory.cpp:604-621 | removes the first entry of the tag, says so exactly when there was one, keeps the count exact |
| Directory.Dir.Clear | src/core/directory.cpp:177-182 | every entry empty and the count zero |
| Directory.Dir.Deserialize | src/core/directory.cpp:667-681 | the whole 10-byte records of the input, as many as fit, are decoded over the entries, a partial last record is ignored, and the count is recomputed exactly |
| Publish.CurrentViewIsComplete | src/core/directory.hpp:145-184 | a writer whose view is current knows every admitted entry of its key |
| Publish.OthersCleared | src/core/directory.cpp:387-463 | its commit clears every admitted copy of the key but the slot it writes |
| Publish.OneEntryPerKey | src/core/directory.cpp:339-463 | over every run of racing writers, removers and admission changes, with probes that may carry offsets of earlier scans, a bucket never holds two admitted entries of one key, though foreign keys share its tag |
| Publish.UndisturbedCommits | src/core/directory.cpp:339-373 | a writer that saw every admitted entry of its tag, with its verified entry still there, is never turned away |
| Publish.UndisturbedPublishes | src/core/directory.cpp:387-463 | and its commit leaves an entry with its tag, phase and serial at the offset it wrote |
| Publish.UncheckedPublishDuplicates | src/core/mmap_directory.cpp:1180-1251 | without the view check two racing writers leave two entries of one key, and the check turns the second away |
| WaiterLedger.TakeBalanced | src/c_api/cyclone_c.cpp:512-519 | moving whole entries out of the in-flight map into a notifier's list neither loses nor duplicates a registration |
| WaiterLedger.DeliverBalanced | src/c_api/cyclone_c.cpp:568-571 | one callback takes one registration out of one list |
| MissBridge.InvStep | src/c_api/cyclone_c.cpp:487-777 | every step of reads, done calls, throwing handlers, drains and destroy keeps each registration in exactly one place, one outstanding fetch per key in flight, and the write-back count |
| MissBridge.OkMeansOneCallback | src/c_api/cyclone_c.cpp:597-762 | a read that returned OK was called back exactly once, or sits exactly once in one list: under a key an outstanding fetch will take, or with a call about to notify it |
| MissBridge.ErrorMeansNoCallback | src/c_api/cyclone_c.cpp:764-777 | a read that returned an error is registered nowhere and is never called back, then or later in the run |
| MissBridge.NeverTwice | src/c_api/cyclone_c.cpp:489-494 | no read is called back twice, with repeated and late done calls, throwing handlers, timed-out drains and destroy in any order |
| MissBridge.QuietMeansAllAnswered | src/c_api/cyclone_c.cpp:487-572 | once all calls have ended and no fetch is outstanding, exactly the reads that returned OK were called back, once each, and nothing is in flight |
| MissBridge.RegisterJoins | src/c_api/cyclone_c.cpp:669-703 | a read that registers outside a shutdown and within the limit waits once under its key, which has its fetch, the read's own exactly when the key was not in flight |
| MissBridge.DrainEmptiesTheMap | src/c_api/cyclone_c.cpp:792-829 | from the step at which any drain stops waiting, idle or timed out, nothing is in flight in any later state |
| MissBridge.DestroyAnswersAll | src/c_api/cyclone_c.cpp:792-829 | once destroy has let the cache go, every read that returned OK was called back once or is in the list of a call still notifying, whatever became of its fetch, and was called back once no call is |
| MissBridge.OneFetchPerKey | src/c_api/cyclone_c.cpp:669-703 | a key in flight always has its one outstanding fetch, until shutdown every outstanding fetch has its entry, no two fetch one key, and the map stays within the limit |
| MissBridge.WriteBackFindsCache | src/c_api/cyclone_c.cpp:227-248 | a call about to write back finds the cache open; once destroy let it go no write-back is registered or ever will be |
| MissBridgeRuns.Misses | src/c_api/cyclone_c.cpp:597-719 | any read of any key can miss on a new bridge, register, hand its fetch to the handler and return OK |
| MissBridgeRuns.FetchAnswers | src/c_api/cyclone_c.cpp:487-572 | from any run that ends with one such read waiting, a done call can store the data and answer it: one callback, nothing in flight, no write-back registered |
| MissBridgeRuns.DestroyAnswers | src/c_api/cyclone_c.cpp:227-248 | from the same runs, with the fetch never completed, a destroy whose drain times out can answer the read once and let the cache go |
| CacheGate.RefinesOneLock | src/core/cache.cpp:157-182 | every run of the 16-shard gate is a run of one reader-writer lock; a completed exclusive acquisition is alone |
| CacheGate.NoDeadlock | src/core/cache.cpp:164-176 | every unfinished call, and the syncer, can move itself or waits, through a chain of threads each waiting for the next, for one that can; waiting and moving exclude each other, and waits-for is acyclic |
| CacheGate.OneStopTearsDown | src/core/cache.cpp:844-916 | of any number of concurrent stops one tears a started cache down, and teardowns begun and finished match the starts |
| CacheGate.UseFindsVolumesOpen | src/core/cache.cpp:942-959 | no granted operation and no sync pass, the final one included, touches a closed volume |
| CacheGate.GrantedWhileStarted | src/core/cache.cpp:942-959 | an operation's check grants it exactly while a start has no stop that claimed its teardown |
| CacheGate.FinalPassFirst | src/core/cache.cpp:862-916 | with a syncer, the stopping thread made the final pass before it goes to close the volumes |
| CacheGateLife.StartUseStop | src/core/cache.cpp:844-959 | the gate allows a whole life: a run through all 16 shards that starts a cache, grants an operation with the volumes open and stops it with them closed |
| CacheGate.InvStep | src/core/cache.cpp:844-916 | every lock, unlock, check, exclusive section and join keeps exclusion, one teardown, the flags and the syncer's life inside a started cache |
| HitTracker.HitsConserved | src/core/hit_tracker.cpp:63-241 | for every key and alternate: recorded hits = hits passed to the callback + pending delta + deltas in undelivered snapshots, in every state of every run |
| HitTracker.RestingMeansPending | src/core/hit_tracker.cpp:174-274 | with all threads at rest the undelivered hits are exactly the pending ones |
| HitTracker.FlushTakes | src/core/hit_tracker.cpp:217-241 | a flush of a key takes its whole pending delta |
| HitTracker.SweepTakes | src/core/hit_tracker.cpp:174-191 | a sweep takes everything pending in each stripe it comes to |
| HitTracker.SnapshotsAreDelivered | src/core/hit_tracker.cpp:174-274 | hits in a thread's snapshot are passed to the callback or still in it, in every later state |
| HitTracker.FlushDelivers | src/core/hit_tracker.cpp:217-241 | by the time a flushing thread rests again, all that was pending for the key was passed to the callback |
| HitTracker.CounterBalance | src/core/hit_tracker.cpp:63-241 | in every state of every run the entry counter is the stripes' total, less entries not yet counted, plus removed entries not yet subtracted, and never negative; it equals the total if and only if these two are equal |
| HitTracker.CounterRunsAhead | src/core/hit_tracker.cpp:182-191 | a run in which the counter is one and no entry is pending |
| HitTracker.RestingCounterIsTotal | src/core/hit_tracker.cpp:174-274 | with all threads at rest the counter is the number of pending entries |
| HitTracker.DropsAreCounted | src/core/hit_tracker.cpp:85-95 | a hit is dropped only when its key is not pending and the counter is past the hard cap |
| HitTracker.PendingKeyLosesNothing | src/core/hit_tracker.cpp:76-97 | a key that stays pending over a stretch of a run loses no hit in it |
| HitTracker.InvStep | src/core/hit_tracker.cpp:63-274 | every step conserves the hits on every key and the entries the counter stands for |
| Sha256Spec.PaddedInjective | src/core/sha256.hpp:68-88 | the padding of section 5.1.1 of FIPS 180-4 is unambiguous: messages under 2^64 bits with equal padded forms are equal |
| Sha256Spec.LengthByte | src/core/sha256.hpp:69-87 | the wrapped 64-bit bit count, shifted out byte by byte, is the big-endian length field |
| Sha256Words.ChBit | src/core/sha256.hpp:130-132 | bit i of Ch is y's where x's is set and z's where it is not |
| Sha256Words.MajBit | src/core/sha256.hpp:134-136 | bit i of Maj is set exactly when at least two of the three are |
| Sha256Words.RotrBit | src/core/sha256.hpp:126-128 | bit i of a rotated word is bit i + n, around the end |
| Sha256Words.ShiftedBit | src/core/sha256.hpp:146-152 | bit i of a shifted word is bit i + n |
| Sha256Constants.PrimesAreFirst | src/core/sha256.hpp:112-124 | the table the constants are derived from holds the first 64 primes, in order and without gaps |
| Sha256Constants.RoundConstants | src/core/sha256.hpp:112-124 | round constant t is the first 32 bits of the fractional part of the cube root of the t-th prime |
| Sha256Constants.InitialHash | src/core/sha256.hpp:24-32 | the initial words are the first 32 bits of the fractional parts of the square roots of the first eight primes |
| Sha256KnownAnswer.AbcDigest | src/core/sha256.hpp:104-109 | SHA-256 of "abc" is ba7816bf 8f01cfea 414140de 5dae2223 b00361a3 96177a9c b410ff61 f20015ad |
| Sha256Context.Expand | src/core/sha256.hpp:155-168 | the array holds the recursive message schedule of section 6.2.2 of FIPS 180-4 |
| Sha256Context.Transform | src/core/sha256.hpp:154-200 | the schedule and the 64 rounds over eight rotating variables are the compression function |
| Sha256Context.Context.constructor | src/core/sha256.hpp:22-35 | a new context has absorbed the empty message |
| Sha256Context.Context.Reset | src/core/sha256.hpp:24-35 | back to the empty message, whatever was absorbed |
| Sha256Context.Context.Update | src/core/sha256.hpp:37-66 | after the top-up, block and tail phases the context has absorbed the message followed by the data, for every split |
| Sha256Context.Context.Pad | src/core/sha256.hpp:71-82 | 0x80 and zeros to the length field, through an extra block exactly when the length does not fit |
| Sha256Context.Context.Finalize | src/core/sha256.hpp:68-102 | the digest of the compression fold over the padded message, leaving the context as new |
| Sha256Context.Output | src/core/sha256.hpp:90-97 | the state words written most significant byte first |
| Sha256Context.HashChunks | src/core/sha256.hpp:37-102 | any cutting of a message into updates gives SHA-256 of the whole |
| Sha256Context.HashMessage | src/core/sha256.hpp:104-109 | the one-shot hash is SHA-256 of the message |
| FieldTable.CutWire | src/core/document.cpp:151-196 | reading back a record's wire form gives the record, for any field table and whatever follows |
| FieldTable.WireCut | src/core/document.cpp:117-130 | writing what was read gives back the bytes |
| FieldTable.WireUpdate | src/core/document.cpp:132-149 | overwriting a field's bytes at its offset is replacing that field and no other |
| Document.OffsetsMatch | src/core/document.cpp:71-104 | the offset of each of the 20 fields, and the table covers 132 bytes |
| Document.HeaderView | src/core/document.cpp:364-370 | lies inside the input, for arbitrary bytes |
| Document.ContentView | src/core/document.cpp:372-391 | lies inside the input, for arbitrary bytes |
| Document.PayloadView | src/core/document.cpp:393-403 | lies inside the input, for arbitrary bytes |
| Document.PatchField | src/core/document.cpp:151-196 | on arbitrary bytes, overwriting any field changes that field and nothing else |
| Document.InPlaceRewrite | src/core/document.cpp:132-149 | on arbitrary bytes, rewriting fill_serial, write_serial, hit_count, next_alternate_offset or last_access leaves validity, shape, all views and the verdict of verification as they were |
| DocumentChanges.ChangeAccepted | src/core/document.cpp:343-403 | on arbitrary bytes of an accepted document, overwriting any covered field but the length leaves it valid and verifying if and only if the CRC of the field's difference, from an empty register, is zero |
| DocumentChanges.ChangesDetected | src/core/document.hpp:207-221 | every such change of a field other than the length is refused if and only if the field is at most four bytes wide |
| DocumentChanges.CoveredFields | src/core/document.hpp:207-216 | the fields the checksum does not zero are exactly those the header names as covered |
| DocumentChanges.ShorterLength | src/core/document.cpp:393-403 | a length that shortens the payload is accepted if and only if the bytes cut off take the CRC register to where the change of the header takes it |
| DocumentChanges.LongerLength | src/core/document.cpp:393-403 | a length that lengthens the payload is accepted if and only if the bytes added take the changed register back |
| DocumentChanges.UnmovedLengthDetected | src/core/document.cpp:393-403 | a length change that does not move the payload is always refused |
| DocumentChanges.ServedChange | src/core/document.hpp:193-203 | a document that is servable and verifies is still both after a change of one covered field if and only if the field is one of the two keys and its difference vanishes |
| DocumentBuilder.LengthSlips | src/core/document.hpp:207-216 | any document gets, by four suitable bytes at its end, a length change that passes verification |
| DocumentBuilder.SerializeTo | src/core/document.cpp:124-130 | the table loop writes the concatenation of the fields |
| DocumentBuilder.HeaderSeed | src/core/document.cpp:132-149 | serializing and zeroing the in-place ranges gives the CRC state over the canonical header |
| DocumentBuilder.Deserialize | src/core/document.cpp:159-195 | the table loop cuts the fields out in order |
| DocumentBuilder.SerializeHead | src/core/document.cpp:278-326 | empty exactly when the document exceeds a 32-bit length, else the stored header with its checksum patched in, and the header bytes |
| DocumentBuilder.Build | src/core/document.cpp:264-271 | empty on overflow, else header, header bytes and content |
| DocumentBuilder.HeadThenContent | src/core/document.cpp:264-276 | build_head followed by the content is build, and both are empty together |
| DocumentBuilder.BuiltReadsBack | src/core/document.cpp:343-403 | a built document reads back valid, with every field as its setter gave it and the same header bytes and content; it verifies; it is servable exactly when it is one complete fragment with the content's length |
| FrontierRetain.Retain.constructor | benchmarks/kv_churn_policy.cpp:121-124 | an empty ring with chunks of the rounded-up size |
| FrontierRetain.Retain.Access | benchmarks/kv_churn_policy.cpp:125-139 | hit exactly when resident; a miss appends the key to the history; the ring, the residents, W <= F <= slots and a runway of at most a chunk and a half are kept, and between accesses more than half a chunk is clean unless the pass is ending |
| FrontierRetain.Retain.Advance | benchmarks/kv_churn_policy.cpp:143-150 | the frontier moves a chunk, or to the end, evicting exactly what it passes |
| FrontierRetain.ResidentsAreSuffix | benchmarks/kv_churn_policy.cpp:113-118 | the residents are exactly a suffix of the insertions if and only if the empty marker is not an insertion that left the suffix |
| FrontierRetain.RetainedCount | benchmarks/kv_churn_policy.cpp:17-24 | from the end of the first pass on at least slots - chunk - chunk/2 keys are resident |
| FrontierRetain.AccessBoth | benchmarks/kv_churn_policy.cpp:98-157 | with one chunk an access to the ring and to the wrap flush agree if and only if it does not ask for the empty marker after the pass that inserted it |
| FrontierRetain.Replay | benchmarks/kv_churn_policy.cpp:23-24 | on every trace without the marker, one chunk hits and misses exactly as the wrap flush |
| FrontierRetain.MarkerNeverLeaves | benchmarks/kv_churn_policy.cpp:142-150 | with the marker they part: the ring still hits it after eviction |

## Left out

- Hardware memory order and fences: steps are sequentially consistent, so the fences' own work is not modelled.
- Version wrap-around of the bucket seqlock: versions are unbounded naturals.
- Revalidation.PassedWhenCurrent: a generation seen again after a multiple of 65536 bumps in one hold is the case stated at `src/core/mmap_directory.cpp:1926`; PassesExclude, about holds from the store of the PID to the pass, does not depend on it.
- Revalidation.PassesExclude: a PID has one holder at a time, as the stripe mutex sees to within a process.
- DeadRecovery.AtMostOneHolder: assumes that a recovery's claim never lands on the byte of a live process; usurped live holders are the subject of Revalidation.
- Publish.OneEntryPerKey: assumes that every publish uses a fresh non-zero offset and an admission that never re-admits a rejected entry.
- LockWait.LockHolderWait.Wait: the length of a sleep and the back-off are an input, the time of waking.
- Sha256Context.Context.Update: calls the compression function as a value, for any such function; Transform is proved to compute the one of SHA-256. The eight-word state is a sequence, not updated in place.
- MissBridge.OkMeansOneCallback: the order of notification, the ring of completed contexts, reference counts and condition-variable wake-ups are not modelled, and read callbacks do not throw.
- MissBridge.WriteBackFindsCache: covers write-backs only; a read past its shutdown check may look its key up after the cache is gone, and relies on the header's rule against destroying the cache during other calls (`include/cyclone/cyclone_c.h:455-457`).
- CacheGate.NoDeadlock: optimization workers are ordinary operations that stop does not join, a start fails only before its syncer exists, and the path of a forked child is not modelled; fairness is not claimed.
- HitTracker.HitsConserved: deltas are unbounded (32 bits in the code), and the grace window is an arbitrary verdict.
- DocumentBuilder.Deserialize: the atomic loads of the three live fields are plain reads; fields are little-endian images, as on the supported machines.
- Key digests, liveness probes, owner leases, volumes, stripes, the RAM cache, the coroutine layer and configuration: easy members or code outside this core.
- The LRU and FIFO replays beside the retention ring: textbook policies.
- Time to completion and fairness of the locks: the code promises neither.
