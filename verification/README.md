# Verification of the AXI4 fabric and its platform

A Dafny model of the simulator's memory system, with proofs about whole runs.

* **Fabric** (`src/fabric.hpp`, `src/axi.hpp`). A multi-port AXI4 slave stepped
  one cycle at a time. `Fabric.dfy` and `FabricRun.dfy` define a cycle on values
  (`drive`, then `commit` with the same reset flag), with logs of everything
  accepted, granted, accessed and retired. The other `Fabric*.dfy` files prove
  what every run keeps. `AxiFabric.dfy` is the same fabric as a class whose
  methods change fields in place with the loops of the source. Each of its methods is
  proved equal to the value-level step, so the run theorems hold for it.
* **Bursts and queues** (`Axi.dfy`, `Bursts.dfy`, `RingBuffer.dfy`): FIXED, INCR
  and WRAP addressing, lane masks, the 4 KiB rule, the ring buffer.
* **Address map and RAM** (`AddressSpace.dfy`, `Memory.dfy`): `src/devices.cpp`.
* **Image loading** (`Elf.dfy`, `ImagePlan.dfy`, `ImageInstall.dfy`,
  `ImageLoader.dfy`): `src/elf_loader.cpp`.
* **Interrupt controller** (`Plic.dfy`, `PlicRegisters.dfy`, `PlicDevice.dfy`):
  `examples/fuxi/sim/interrupt_devices.cpp`.
* **Sideband order** (`Topology.dfy`, `Platform.dfy`): `src/platform.cpp`.
* **Packed fields** (`Bits.dfy`, `Bytes.dfy`, `Packed.dfy`): `src/packed.hpp`.
* **UART** (`Uart.dfy`, `UartRegisters.dfy`, `UartDevice.dfy`): the 16550 of
  `src/devices.cpp`.

Conventions. The number of ports, all FIFO depths, the number of monitors and
the memory map are arbitrary; the bus is 4, 8 or 16 bytes wide. A thrown error is
a `Failed` outcome or an error value that carries the state at the throw. A
stall of READY is a free Boolean per channel and cycle. ROM and RAM are byte
sequences; any other device answers with a value chosen freely each cycle, since
a cycle makes at most one device access (`OneAccessPerCycle`). 64-bit wrap-around
is written out where it can happen.

Standards: AMBA AXI and ACE Protocol Specification (ARM IHI 0022E), sections
A3.2.1, A3.4.1, A3.4.3 and A7.2; RISC-V PLIC Specification, sections Interrupt
Priorities, Interrupt Claim Process and Interrupt Completion; System V gABI,
chapter 5, Program Header; PC16550D data sheet, section 8.

Where the code and its promises differ, the model follows the code:

* The repository promises DECERR for unmapped accesses (its `README.md:71-72`). The
  code answers SLVERR when the access is exclusive, because the lock branch overrides the decode error
  (`src/fabric.hpp:335-341`). And it decodes an unmapped access whose beats outside the
  window all end at 2^64, because their lane masks are empty. `WriteDecodeErrors` and
  `ReadDecodeErrors` prove for every run that DECERR is answered exactly to the other
  unmapped accesses (devices that choose their own answer aside);
  `UnmappedExclusive` and `UnmappedAtTop` are runs for the two exceptions.
* A reservation whose range ends at 2^64 stores a wrapped end of 0, so no store
  ever breaks it. `ExclusiveAtTop` states what such a write answers in every run
  and that the promise is broken exactly when a store came between;
  `TopReservationIgnoresStores` is a run of five cycles in which it is.
* Reservations are kept by bus address, so a store through another window of the
  same RAM goes unseen. `ExclusiveExact` guarantees every byte that nobody stored
  to through another window. For every configuration and every byte that a second
  window shows, `AliasedStoreUnseen` gives a run of three cycles in which the byte
  changes under a reservation that holds; `SoleExactly` puts both as one equivalence.
* A beat window ending at 2^64 has an empty lane mask (`src/axi.hpp:224-229`), so
  an exclusive write there still covers its whole range in one access.
  `AccessesStayInWindow` shows an access leaves its window only in that case, and
  the run of `TopReservationIgnoresStores` makes one that does. The 4 KiB check
  equals its closed form even there.
* A reset after WLAST can leave a burst partly committed: `ResetSplitsBurst` is such a
  run. Only a reset before WLAST is promised clean, and `DiscardedBeforeLast` proves
  that; `ResetLeavesCommitted` says what any reset leaves.
* A completion written to the PLIC before the claim releases the gateway. A second
  request can then merge with the pending one, and after the claim the source can be
  claimed again without a completion in between. `GatewayAccounting` counts the
  merges, `ClaimNeedsCompletionIffBusy` says exactly when a completion is needed, and
  `DoubleClaim` shows two claims in a row.

## Model

| member | source | states |
|---|---|---|
| FabricAtomic.BurstAtomicity | src/fabric.hpp:85-97 | In every run, each read beat returned (data and response) is that of memory after a prefix of the completed write bursts, each applied whole and in AW-grant order; the prefixes never shrink from beat to beat; and between commits memory is exactly that replay. |
| FabricCurrent.ReadsAreCurrent | src/fabric.hpp:90-95 | The prefix a new read beat sees is every write completed so far, so no read is stale. |
| FabricCurrent.WriteAnswers | src/fabric.hpp:463-503 | In every run a completed write answers with its own ID: its forced response if it has one, for a plain write to RAM or ROM OKAY if and only if the device takes every beat, else SLVERR, and for an exclusive write to RAM never DECERR. |
| FabricCurrent.BurstContinues | src/fabric.hpp:463-493 | Once a burst has committed a beat, every successful cycle commits the next beat or completes the write, and serves no read. |
| FabricAnswers.ReadsAnswered | src/fabric.hpp:383-406 | In every run a read beat of an access taken by a device other than RAM and ROM carries the device's reply: its response, EXOKAY for OKAY if exclusive, its bytes on the lanes of the beat and zeros elsewhere. Which accesses such a device takes is stated on the payload and the map. |
| FabricAnswers.WritesAnswered | src/fabric.hpp:481-503 | In every run a completed plain write to such a device answers the worst of the replies to its device writes and reports the exit code of the last successful one if it is an exit device; an exclusive one that reached it answers EXOKAY or its failing reply, one that did not answers OKAY. |
| FabricAnswers.RepliesAreCurrent | src/fabric.hpp:85-97 | The logged replies are those of the cycle in which the access was made or the beat served. |
| FabricAnswers.MergeIsWorst | src/axi.hpp:95-107 | Combining responses in order gives the worst: DECERR, SLVERR, EXOKAY, OKAY. |
| FabricExit.ExitIsFirst | src/fabric.hpp:232-246 | In every run the reported exit code is that of the first response with one taken by any master since reset. |
| FabricReady.ReadyExact | src/fabric.hpp:50-71 | In every run READY of a channel is high if and only if there is no reset, no stall, and fewer requests or beats are accepted but not granted or staged than the queue holds; B and R offer the oldest response not yet taken. |
| FabricReady.HandshakesExact | src/fabric.hpp:232-264 | In every run a cycle without error accepts exactly what is offered on a channel that is not stalled and has room, and retires exactly the oldest responses the master is ready for. |
| FabricGrants.GrantsExact | src/fabric.hpp:266-293 | In every run each cycle grants, for AW and AR apart, the oldest request of the asking port nearest after the one granted last if a route is free, and nothing else; the cycle fails exactly if such a request is illegal, with the error that says how. |
| FabricGrants.RefusedExactly | src/fabric.hpp:295-366 | When a request is illegal and with which error, on the payload alone: burst shape and 4 KiB page, a byte at or above 2^32 on a 32-bit bus, exclusive shape. |
| FabricProgress.ProcessExact | src/fabric.hpp:368-493 | From any state: which W beat is refused and how, when the oldest write takes a beat and moves on, when the oldest read is served, and when the monitors are exhausted. |
| FabricStores.AccessesExplained | src/fabric.hpp:387-399 | In every run the device reads are, in order, those of the read beats, each of exactly the bytes of its beat; and the stores that break reservations are, in order, the device writes that succeeded, each with exactly its strobed bytes. |
| FabricAtomic.RunAtomic | src/fabric.hpp:414-503 | The invariant behind it: memory equals whole bursts plus the committed beats of the oldest one, and served beats saw only whole bursts. |
| FabricWindow.GatheredEqualsBeats | src/fabric.hpp:550-570 | The single gathered access of an exclusive write changes memory exactly as its beats one after another would; every index of the range is filled once. |
| FabricWindow.BeatInWindow | src/fabric.hpp:295-342 | Every enabled byte of every beat of a routed burst lies in its one mapping. |
| FabricWindow.StoreBeatAt | src/fabric.hpp:505-522 | What one committed beat does to each byte of its RAM: strobed lanes of the beat window change, all others stay. |
| FabricWindow.ExclusiveBeat | src/fabric.hpp:356-366 | Beat k of a legal exclusive burst is the k-th slice of an aligned range. |
| FabricExclusiveExact.ExclusiveExact | src/fabric.hpp:537-581 | In every run an exclusive write to RAM finds its reservation if and only if the latest exclusive read of its port and ID had the identical payload and since then no strobed write touched the range and no exclusive write of that key ran. It then answers EXOKAY (SLVERR if the RAM is too small), otherwise OKAY. EXOKAY stores every beat on the memory the earlier writes left, any other answer stores nothing. Every byte of the range not stored to through another window holds what the read found. |
| FabricExclusiveExact.ExclusiveAtTop | src/fabric.hpp:615-648 | The same for a transfer ending at 2^64: stores do not count, and the promise above is broken exactly when the latest read was disturbed by one. |
| FabricExclusiveExact.ExclusiveWithheld | src/fabric.hpp:537-549 | Whatever the device, a routed exclusive write not ending at 2^64 is withheld and answered OKAY if and only if no exclusive read of its key with its payload is undisturbed. |
| FabricExclusiveExact.RunTimed | src/fabric.hpp:537-581 | Every exclusive write was decided on the memory left by exactly the writes before it. |
| FabricExclusiveRun.GuardIsRange | src/fabric.hpp:615-648 | The recorded range of a reservation guards exactly the bytes of the transfer, unless the transfer ends at 2^64, when it guards none. |
| FabricExclusiveData.ExclusiveReadData | src/fabric.hpp:368-411 | In every run, when an exclusive write answers EXOKAY on an undisturbed exclusive read, every R beat of that read returned before the decision carries EXOKAY and, for each byte nobody stored to through another window, the byte memory holds when the write is decided. |
| FabricExclusiveData.RunData | src/fabric.hpp:368-411 | The invariant behind it: the read beats after a reservation are those of its own read, in order and without another read between, and each showed a memory in which all bytes not stored to since earlier exclusive reads were unchanged. |
| FabricLimits.TopReservationIgnoresStores | src/fabric.hpp:615-648 | A run: exclusive read, plain store to its first byte, exclusive write ending at 2^64, answered EXOKAY by an access that reaches past its window. |
| FabricLimits.AliasedStoreUnseen | src/fabric.hpp:523-528 | For every configuration and every RAM byte shown at two addresses the bus can carry, a run: exclusive read of it, plain store through the other window, exclusive write answered EXOKAY although the byte changed. |
| FabricLimits.SoleExactly | src/fabric.hpp:523-528 | No run of a configuration answers EXOKAY on an undisturbed reservation over a changed byte if and only if no other window shows that byte at an address the bus can carry. |
| FabricDecode.WriteDecodeErrors | src/fabric.hpp:325-341 | In every run a completed write to unmapped space answers DECERR if plain and SLVERR if exclusive, unless one window holds every beat that does not end at 2^64; no other write to RAM, ROM or unmapped space answers DECERR; writes to ROM and bursts or exclusives the device does not support answer SLVERR. |
| FabricDecode.ReadDecodeErrors | src/fabric.hpp:325-341 | The same for every read beat. |
| FabricDecode.ForcedExactly | src/fabric.hpp:295-342 | A route has no mapping if and only if no window covers the burst and none covers the part of it below 2^64; its forced response follows, and the mapping is the one covering window. |
| FabricLimits.UnmappedExclusive | src/fabric.hpp:335-341 | Two runs: of two reads of the same unmapped word the plain one answers DECERR and the exclusive one SLVERR. |
| FabricLimits.UnmappedAtTop | src/axi.hpp:219-232 | A run: a plain read whose second beat ends at 2^64 and lies in no window answers OKAY on both beats. |
| FabricWrites.DeviceWritesExact | src/fabric.hpp:463-535 | In every run and for every device, the device writes of a finished burst are its non-empty beats in order, each once, with the offset, data and strobes of its enabled lanes, all of them or up to the refused one; an exclusive burst sends its gathered transfer once unless it answers OKAY, and a burst with a forced response sends nothing. |
| FabricWrites.OneAccessPerCycle | src/fabric.hpp:85-97 | A cycle without reset appends at most one device access. |
| FabricExclusive.CurrentIsStanding | src/fabric.hpp:599-648 | The monitor table's view of a key equals the declarative one: a reservation stands since the last claim, undisturbed. |
| FabricExclusive.TableAfterStore | src/fabric.hpp:641-648 | After a store the table still holds at most one valid monitor per key and agrees with the event history. |
| FabricExclusive.TableAfterSpend | src/fabric.hpp:635-639 | The same after an exclusive write spends its key. |
| FabricExclusive.TableAfterReserve | src/fabric.hpp:599-623 | The same after an exclusive read claims its key. |
| FabricErrors.ErrorAtomicity | src/fabric.hpp:73-97 | A cycle that raises a protocol error has made no device access and changed neither memory nor reservations. |
| FabricValidated.DeviceWritesValidated | src/fabric.hpp:425-461 | In every run every device write, to whatever device, belongs to a granted write whose beats have all arrived on the W channel, WLAST on the last one only and every strobe on an enabled lane, and goes to that write's mapping. |
| FabricValidated.RunChecked | src/fabric.hpp:436-457 | The invariant behind it: every staged beat of every write in flight or finished passed the strobe check. |
| FabricDiscard.DiscardedBeforeLast | src/fabric.hpp:448-461 | A reset or error before WLAST of the oldest write leaves memory as the completed bursts left it, and every device write made so far belongs to a completed, validated burst. |
| FabricDiscard.ResetLeavesCommitted | src/fabric.hpp:73-84 | Any reset leaves the completed bursts and exactly the committed beats of the oldest unfinished one. |
| FabricLimits.ResetSplitsBurst | src/fabric.hpp:73-84 | A run: reset one cycle after WLAST leaves the first of two words written. |
| FabricOrder.RunOrder | src/fabric.hpp:248-264 | In every run all queues and logs stay in order and the internal FIFO overflow and empty-FIFO errors are unreachable. |
| FabricConservation.WritesConserved | src/fabric.hpp:495-503 | Per port, IDs of retired, queued, in-flight and buffered writes, in that order, are the IDs of the accepted AWs. |
| FabricConservation.BurstsBelongToRequests | src/fabric.hpp:425-457 | The k-th completed burst of a port has the length of its k-th AW and the bursts in order are a prefix of the accepted W beats. |
| FabricConservation.ReadsConserved | src/fabric.hpp:383-411 | Retired and queued R beats are a prefix of the in-order expansion of the accepted ARs, with IDs and LAST only on final beats; all of it once nothing is pending. |
| FabricStable.ResponsesStable | src/fabric.hpp:50-71 | A B or R response offered with READY low is offered unchanged in the next cycle. |
| FabricStable.WatchesExact | src/fabric.hpp:200-230 | The next cycle raises the stability error if and only if some master dropped VALID or changed its payload on a stalled channel. |
| FabricStable.UnstableExact | src/fabric.hpp:219-230 | From any state the stability error is raised exactly when a blocked watch is broken. |
| FabricFair.BoundedBypass | src/fabric.hpp:266-293 | While a port's AW or AR waits, every other port is granted at most once, so at most NumPorts-1 grants intervene, for every arrival pattern. |
| FabricFair.PickNearest | src/fabric.hpp:268-278 | The round-robin scan picks the waiting port nearest after the pointer. |
| FabricDrain.QuietCycle | src/fabric.hpp:85-97 | With no new requests, responses taken and W beats matching the pending writes, each non-idle cycle lowers the work measure and keeps the balance. |
| FabricDrain.WorkZero | src/fabric.hpp:107-115 | The measure is a natural number and is zero exactly when `idle()` holds. |
| FabricDrain.DrainTerminates | src/fabric.hpp:107-115 | Such a run is idle after at most as many cycles as its initial work. |
| FabricDrainFree.DrainSucceeds | src/fabric.hpp:107-115 | If nothing is stalled, queued requests and W beats are legal and every exclusive read to come has a free monitor, quiet cycles raise no error and end idle, whatever the stalls and devices do. |
| FabricDrainFree.QuietCycleSucceeds | src/fabric.hpp:85-97 | One such cycle succeeds and keeps these conditions. |
| FabricAccess.AccessesStayInWindow | src/fabric.hpp:387-399 | Every device access of every run has all read lanes enabled and stays inside its mapping, unless it is an exclusive write ending at 2^64. |
| Axi.LaneMaskIsInterval | src/axi.hpp:219-232 | The lane mask computed in 64-bit arithmetic is one contiguous run, empty for a window ending at 2^64. |
| Axi.BeatWindow | src/axi.hpp:219-236 | A beat's window lies inside one bus word and never straddles 2^64. |
| Bursts.WrapIsRotation | src/axi.hpp:202-209 | WRAP beats step through the slots of their container starting at the requested address and wrapping at its top. |
| Bursts.WrapIsPermutation | src/axi.hpp:202-209 | They visit each beat slot of the container exactly once. |
| Bursts.WrapInContainer | src/axi.hpp:202-209 | They stay inside one size-aligned container. |
| Bursts.PlainBeats | src/axi.hpp:190-209 | INCR starts at the address and each beat begins where the last one ended; FIXED stays at the address. |
| Bursts.EndIsNextMultiple | src/axi.hpp:219-232 | A beat ends at the next multiple of the transfer size. |
| Bursts.IncrementWithin4K | src/axi.hpp:238-249 | The per-lane loop accepts an INCR burst if and only if its first byte and the last byte of its last beat share a page. |
| Bursts.FixedWrapWithin4K | src/axi.hpp:238-249 | It accepts every well-shaped FIXED or WRAP burst. |
| Bursts.Within4KIsPageRule | src/axi.hpp:238-249 | Both as one closed form, at the end of the 64-bit space included. |
| Bursts.LaneMask | src/axi.hpp:219-232 | The loop computes the mask. |
| Bursts.Validate4K | src/axi.hpp:238-249 | The nested loop accepts exactly the bursts within 4 KiB. |
| Bursts.EnabledExtent | src/fabric.hpp:583-597 | The scan returns the least interval that holds all enabled lanes. |
| Bursts.ExtentOfBeat | src/fabric.hpp:583-597 | For a beat's mask that interval is exactly the enabled lanes. |
| RingBuffers.RingBuffer.Push | src/axi.hpp:135-151 | Appends when there is room, otherwise refuses and changes nothing. |
| RingBuffers.RingBuffer.Pop | src/axi.hpp:153-159 | Removes the oldest value; fails on empty. |
| RingBuffers.RingBuffer.Front | src/axi.hpp:122-133 | Returns the oldest value; fails on empty. |
| RingBuffers.RingBuffer.Clear | src/axi.hpp:161-164 | Empties the buffer. |
| AxiFabricClass.AxiFabric.Drive | src/fabric.hpp:50-71 | The outputs and state are those of the value-level `Drive`, which `ReadyExact` describes from the logs. |
| AxiFabricClass.AxiFabric.Commit | src/fabric.hpp:73-97 | One call refines one value-level `Commit`, error outcome included. |
| AxiFabricClass.AxiFabric.CheckStability | src/fabric.hpp:200-230 | Refines the watch check. |
| AxiFabricClass.AxiFabric.RetireResponses | src/fabric.hpp:232-246 | Refines response retirement. |
| AxiFabricClass.AxiFabric.AcceptIngress | src/fabric.hpp:248-264 | Refines acceptance of AW, W and AR. |
| AxiFabricClass.AxiFabric.RoundRobin | src/fabric.hpp:268-270 | The offset loop finds the picked port. |
| AxiFabricClass.AxiFabric.ArbitrateAddresses | src/fabric.hpp:266-293 | Refines both grants. |
| AxiFabricClass.AxiFabric.InitializeRoute | src/fabric.hpp:295-342 | Refines route validation, decoding and the forced response. |
| AxiFabricClass.AxiFabric.DecodeBurst | src/fabric.hpp:309-331 | The beat and lane loops find a mapping exactly when one window holds every enabled byte of the burst. |
| AxiFabricClass.AxiFabric.ProcessWriteBeat | src/fabric.hpp:414-461 | Refines staging and the WLAST and WSTRB checks. |
| AxiFabricClass.AxiFabric.ProcessWriteCommit | src/fabric.hpp:463-493 | Refines the commit of one beat or of an exclusive burst. |
| AxiFabricClass.AxiFabric.CompleteWriteRoute | src/fabric.hpp:495-503 | Refines the response push. |
| AxiFabricClass.AxiFabric.WriteDeviceBeat | src/fabric.hpp:505-535 | Refines one device write with its reservations broken. |
| AxiFabricClass.AxiFabric.InvalidateMonitors | src/fabric.hpp:641-648 | Clears exactly the monitors guarding the byte. |
| AxiFabricClass.AxiFabric.FindMonitorSlot | src/fabric.hpp:625-633 | Finds the first monitor of the key. |
| AxiFabricClass.AxiFabric.FinishExclusiveWrite | src/fabric.hpp:537-581 | Refines the exclusive decision. |
| AxiFabricClass.AxiFabric.Gather | src/fabric.hpp:550-566 | The beat and lane loops fill the gathered data and strobes. |
| AxiFabricClass.AxiFabric.ProcessReadBeat | src/fabric.hpp:368-412 | Refines one read beat. |
| AxiFabricClass.AxiFabric.EstablishMonitor | src/fabric.hpp:599-623 | Refines claiming a monitor slot, and its failure when the table is full. |
| AxiFabricClass.AxiFabric.ReadDevice | src/fabric.hpp:387-402 | Refines one device read; `ReadsAnswered` and `BurstAtomicity` say what the beat then carries. |
| AxiFabricClass.AxiFabric.Reset | src/fabric.hpp:650-671 | Refines the reset state. |
| AddressMap.AddressSpace.Map | src/devices.cpp:72-103 | Accepts a window if and only if the space is open and the range is non-empty, below 2^64 and disjoint from every other; keeps the windows sorted and disjoint; refusal changes nothing. |
| AddressMap.AddressSpace.Freeze | src/device.hpp:151 | Closes the space and keeps its windows. |
| AddressMap.AddressSpace.Resolve | src/devices.cpp:105-123 | Bisection finds what a linear scan finds: a window if and only if one holds the whole non-empty range. |
| AddressMap.AddressSpace.ResolutionError | src/devices.cpp:125-138 | SLVERR if and only if some window holds the first byte. |
| AddressMap.ScanUnique | src/devices.cpp:105-123 | At most one window holds a range, so the scan has one answer. |
| Memory.RamDevice.Read | src/devices.cpp:329-345 | Enabled lanes return the stored bytes, others zero; out of range is SLVERR. |
| Memory.RamDevice.Write | src/devices.cpp:347-364 | Strobed lanes are stored, every other byte kept. |
| Memory.RamDevice.Load | src/devices.cpp:366-373 | The whole range is stored, or nothing. |
| Images.LoadAllLoads | src/elf_loader.cpp:400-404 | An accepted plan leaves every chunk's bytes as its data followed by zeros and every other byte untouched. |
| Images.OrderIndependent | src/elf_loader.cpp:382-405 | Any order of the same chunks is accepted alike and loads the same bytes, through aliased windows too. |
| Images.OverlapIsClash | src/elf_loader.cpp:384-393 | The offset comparison holds exactly when two chunks meet in a byte of a device, whichever windows they use. |
| Images.NeighboursDecide | src/elf_loader.cpp:317-335 | In address order, comparing neighbours decides whether all pairs are apart. |
| ImageLoaderClass.ImageLoadPlan.Apply | src/elf_loader.cpp:382-405 | Accepts exactly the plans whose chunks fit and do not clash; a refusal changes no byte; an accepted load is never refused by a device. |
| ImageLoaderClass.ImageLoadPlan.ApplySegment | src/elf_loader.cpp:128-156 | Data then zeros in blocks of at most 4096 bytes equals one whole chunk. |
| ImageLoaderClass.ImageLoadPlan.ValidateTarget | src/elf_loader.cpp:106-126 | True exactly when one loadable device takes the whole range. |
| ImageLoaderClass.ImageLoadPlan.ValidateNoOverlap | src/elf_loader.cpp:317-335 | Sort-and-compare equals the pairwise definition. |
| ImageLoaderClass.ImageLoadPlan.CheckHeader | src/elf_loader.cpp:271-300 | Accepts exactly the well-formed headers. |
| ImageLoaderClass.PowerTest | src/elf_loader.cpp:277-281 | x & (x - 1) is zero exactly for powers of two. |
| ImageLoaderClass.ImageLoadPlan.CollectSegments | src/elf_loader.cpp:303-315 | The header loop accepts exactly when every program header is well formed, and collects the loadable ones in order. |
| ImageLoaderClass.ImageLoadPlan.AddElf | src/elf_loader.cpp:339-362 | Adds the chunks of all segments, or none if the header is refused, a program header is bad or two segments overlap. |
| ImageLoaderClass.ImageLoadPlan.LoadElf | src/elf_loader.cpp:406-411 | Loads the whole image, every segment at its physical (or else virtual) address with zeros up to its memory size and no other byte changed, or changes no byte; when it accepts is stated exactly. |
| ImageInstall.EncodedImagePlaced | src/elf_loader.cpp:289-301 | When the file an encoder wrote is accepted, byte i of every loadable segment stands on the bus at p_paddr + i, or p_vaddr + i if p_paddr is zero: the file byte up to p_filesz, zero up to p_memsz; no other byte changes. |
| ImageInstall.AcceptedExactly | src/elf_loader.cpp:270-301 | An image is loaded if and only if its header is readable, every loadable segment is well formed and backed by one loadable window, and no two segments share an address or a device byte. |
| ImageInstall.EncodedImageAccepted | src/elf_loader.cpp:270-301 | The same for an encoded file, on the headers it was given. |
| Elf.HeaderRoundTrip | src/elf_loader.cpp:158-221 | The decoder reads back the ELF32 or ELF64 header of every image an encoder wrote. |
| Elf.EntryRoundTrip | src/elf_loader.cpp:223-269 | It reads back every loadable program header, field by field, in both classes. |
| Elf.EntriesRoundTrip | src/elf_loader.cpp:303-315 | It reads back the whole table in order. |
| Elf.ReadableExactly | src/elf_loader.cpp:158-221 | Which files have an acceptable header, byte by byte, and the fields read from it. |
| Elf.EntriesReadable | src/elf_loader.cpp:209-235 | Once a header is accepted, decoding an announced entry never runs out of bounds or overflows. |
| Elf.ReadLittleEndian | src/elf_loader.cpp:49-62 | The byte loop reads the little-endian word, or fails exactly past the end of the image. |
| ImageLoaderClass.ImageLoadPlan.AddRaw | src/elf_loader.cpp:366-377 | Adds one chunk, nothing for an empty image, or refuses. |
| ImageLoaderClass.ImageLoadPlan.Load | src/devices.cpp:173-190 | Loads the whole range into one loadable device, or nothing. |
| Plic.GatewayAccounting | examples/fuxi/sim/interrupt_devices.cpp:210-276 | Since reset each forwarded request is claimed, pending or merged, and is completed or busy; so claims plus pending never exceed effective completions plus busy. |
| Plic.ClaimsBounded | examples/fuxi/sim/interrupt_devices.cpp:240-272 | Since reset a source is claimed at most once more than it is effectively completed. |
| Plic.ClaimNeedsCompletionIffBusy | examples/fuxi/sim/interrupt_devices.cpp:240-272 | For a source that is not pending, every run that claims it completes it first if and only if its busy bit is set. |
| Plic.DoubleClaim | examples/fuxi/sim/interrupt_devices.cpp:240-272 | Completed before it is claimed, a source is claimed twice with no completion in between. |
| Plic.OneSourceReached | examples/fuxi/sim/interrupt_devices.cpp:252-276 | The state in which that begins is two register writes away from reset. |
| Plic.ClaimIsExclusive | examples/fuxi/sim/interrupt_devices.cpp:240-248 | A claim takes the winner away from every context. |
| Plic.InterruptLines | examples/fuxi/sim/interrupt_devices.cpp:205-217 | After every operation since reset a context's line is high if and only if some enabled pending source has a priority above its threshold. |
| Plic.Best | examples/fuxi/sim/interrupt_devices.cpp:195-204 | The scan returns the lowest-numbered enabled pending source of maximal nonzero priority, or 0 if there is none. |
| Plic.WinnerUnique | examples/fuxi/sim/interrupt_devices.cpp:195-204 | That source is unique. |
| Plic.Step | examples/fuxi/sim/interrupt_devices.cpp:218-276 | Every operation keeps the sizes and the zero priority of the reserved source 0. |
| Plic.RunMasked | examples/fuxi/sim/interrupt_devices.cpp:255-265 | No run from reset enables source 0 or a source past the last. |
| Plic.SettleIdempotent | examples/fuxi/sim/interrupt_devices.cpp:210-217 | Settling twice under the same inputs is settling once. |
| PlicRegisters.WriteMap | examples/fuxi/sim/interrupt_devices.cpp:251-276 | What a write to every register does, bit by bit: priorities and thresholds take the low three bits, enable bits follow the written bit for existing sources, a completion opens the gateway of an enabled source, no other register changes, and the gateways then forward the inputs. |
| PlicRegisters.ReadMap | examples/fuxi/sim/interrupt_devices.cpp:218-250 | What a read of every register returns, pending bits included, and that only a claim has an effect. |
| PlicRegisters.WriteThenRead | examples/fuxi/sim/interrupt_devices.cpp:218-276 | Priorities, thresholds and enables are read back as written. |
| PlicRegisters.VacantMap | examples/fuxi/sim/interrupt_devices.cpp:218-276 | Where there is no register a write only settles and a read gives 0. |
| PlicRegisters.OffsetsDiffer | examples/fuxi/sim/interrupt_devices.cpp:218-276 | No two registers share an offset. |
| PlicClass.Decode | examples/fuxi/sim/interrupt_devices.cpp:18-40 | Decodes exactly the accesses whose active lanes are one aligned run of 4 or 8, or none. |
| PlicClass.Get | examples/fuxi/sim/interrupt_devices.cpp:41-49 | The little-endian number on the active lanes. |
| PlicClass.Put | examples/fuxi/sim/interrupt_devices.cpp:50-54 | Puts the value on the active lanes only. |
| PlicClass.PlicDevice.FindBest | examples/fuxi/sim/interrupt_devices.cpp:195-204 | The loop finds the winner. |
| PlicClass.PlicDevice.NotifyContexts | examples/fuxi/sim/interrupt_devices.cpp:205-209 | Sets every line from the winner's priority and the threshold. |
| PlicClass.PlicDevice.SettleInputs | examples/fuxi/sim/interrupt_devices.cpp:210-217 | Refines the gateways and the lines. |
| PlicClass.PlicDevice.ReadRegister | examples/fuxi/sim/interrupt_devices.cpp:218-251 | Refines a register read, claim included. |
| PlicClass.PlicDevice.WriteRegister | examples/fuxi/sim/interrupt_devices.cpp:252-276 | Refines a register write, completion included; `WriteMap` says what it does. |
| PlicClass.PlicDevice.Read | examples/fuxi/sim/interrupt_devices.cpp:277-287 | Reaches a register exactly for a legal 32-bit access; otherwise changes nothing. |
| PlicClass.PlicDevice.Write | examples/fuxi/sim/interrupt_devices.cpp:288-298 | The same for writes, with the little-endian value of the active lanes. |
| PlicClass.PlicDevice.Reset | examples/fuxi/sim/interrupt_devices.cpp:169-183 | Returns to the initial state. |
| Topology.Verdict | src/platform.cpp:439-448 | When the worklist is exhausted it holds every device if and only if the wiring has no cycle, and is then a topological order. |
| Topology.StuckIsCyclic | src/platform.cpp:446-448 | Devices each driven from among themselves contain a cycle. |
| Topology.OrderedIsAcyclic | src/platform.cpp:446-448 | A topological order rules out every cycle. |
| Platforms.Platform.Connect | src/platform.cpp:410-449 | Rejects the wiring if and only if a connection is faulty (the first fault is reported) or the graph has a cycle; otherwise lists every device once after all its drivers, duplicate connections included. |
| Platforms.Platform.Wire | src/platform.cpp:416-432 | The connection loop finds the first fault, or records every source and counts every connection. |
| Platforms.Platform.Drain | src/platform.cpp:439-445 | The worklist loop answers every connection once. |
| Platforms.OnePassIsFixpoint | src/platform.cpp:468-472 | One pass along the order settles every device whose settling is local and idempotent; a second pass changes nothing. |
| Platforms.OrderDoesNotMatter | src/platform.cpp:433-438 | Every topological order settles the platform to the same state. |
| Platforms.Platform.Settle | src/platform.cpp:468-472 | The loop performs one pass. |
| Packed.RoundTrip | src/packed.hpp:67-113 | Reading a written field gives the value modulo 2^width, across word boundaries, cut only at the end of a scalar. |
| Packed.Frame | src/packed.hpp:90-113 | A write leaves every disjoint field unchanged. |
| Packed.WriteUnique | src/packed.hpp:90-113 | The bits of a write determine the whole signal. |
| Packed.BytesRoundTrip | src/packed.hpp:115-131 | Every byte written inside the signal is read back. |
| Packed.WordBit | src/packed.hpp:12-29 | Word k holds bits 32k to 32k+31, zero past the end of a scalar. |
| Packed.PackedSignal.SetWord | src/packed.hpp:31-51 | Replaces one word and keeps every other bit; refuses past the end of a scalar. |
| Packed.PackedSignal.ReadU64 | src/packed.hpp:67-88 | The loop gathers exactly the bits of the field. |
| Packed.PackedSignal.WriteU64 | src/packed.hpp:90-113 | The loop replaces exactly the bits of the field; when it fails is stated exactly. |
| Packed.PackedSignal.ReadBytes | src/packed.hpp:115-123 | Byte i is the 8-bit field at lsb + 8i. |
| Packed.PackedSignal.WriteBytes | src/packed.hpp:125-131 | Writes the little-endian number the bytes spell, and nothing else; when it fails is stated exactly. |
| Uart.RegistersConsistent | src/devices.cpp:459-525 | In every run the FIFO fits its capacity (1 or 16), transmit-pending and THRE-pending exclude each other, backend bytes are neither lost nor repeated, and the line is high if and only if an enabled source asks, which is when IIR bit 0 is clear. |
| Uart.ReceiveStream | src/devices.cpp:509-566 | Without FIFO clear, reset or looped bytes, bytes read by the guest, then the FIFO, then the backend queue are the bytes that arrived, in order. |
| Uart.IdentificationParts | src/devices.cpp:527-551 | IIR is the highest-ranking pending source plus the FIFO bits; bit 0 is clear exactly when a source is pending. |
| Uart.LoopedLines | src/devices.cpp:620-627 | In loopback the four control outputs appear on the four modem inputs. |
| Uart.DeltaBits | src/devices.cpp:628-633 | Delta bits record changes of their line, the ring bit only a falling edge. |
| Uart.SettleIdempotent | src/devices.cpp:491-493 | Settling is idempotent. |
| UartRegisters.TransmitStream | src/devices.cpp:603-618 | In every run the backend has received exactly the bytes strobed to register 0 while LCR bit 7 and MCR bit 4 were clear, in order, all read off the operations. |
| UartRegisters.LoopbackEcho | src/devices.cpp:603-618 | In loopback with an empty FIFO, up to its capacity of bytes written come back in order. |
| UartRegisters.WriteActs | src/devices.cpp:635-682 | What every register write does to transmitter, FIFO, overrun and output, on bits and fields: a looped byte joins the FIFO or sets overrun exactly when it is full. |
| UartRegisters.StoredRegisters | src/devices.cpp:635-682 | Each stored register keeps the implemented bits of what was written and no write changes another. |
| UartRegisters.ReadBack | src/devices.cpp:553-601 | They are read back. |
| UartRegisters.ModemWrite | src/devices.cpp:620-633 | Modem lines and recorded changes after a control write, bit by bit. |
| UartRegisters.LineStatusBits | src/devices.cpp:579-588 | Every bit of the line status register. |
| UartRegisters.ModemStatusBits | src/devices.cpp:589-594 | Every bit of the modem status register. |
| UartRegisters.TriggerLevels | src/devices.cpp:533-535 | The trigger level of each setting of the two top bits. |
| UartRegisters.IdentificationCodes | src/devices.cpp:527-551 | The identification register on the fields: codes, ranks and conditions. |
| UartRegisters.ReadActs | src/devices.cpp:553-601 | What every register read does beside returning a value. |
| UartRegisters.TickExact | src/devices.cpp:494-525 | One tick, field by field. |
| UartRegisters.PollExact | src/devices.cpp:509-525 | The backend is looked at exactly when the wait is over; a dry look starts a wait of the poll interval. |
| UartRegisters.TimeoutExact | src/devices.cpp:540-544 | The receive timeout asks after exactly four character times without activity. |
| UartRegisters.TransmitTakesOneTick | src/devices.cpp:494-507 | One tick after a byte is sent the transmitter is empty and says so. |
| UartRegisters.ResetIsPowerUp | src/devices.cpp:459-476 | Reset restores the power-up state; the backend stays. |
| UartRegisters.ReadsInOrder | src/devices.cpp:684-697 | Enabled lanes are read one after another, others do nothing. |
| UartRegisters.WritesInOrder | src/devices.cpp:699-712 | The same for strobed lanes. |
| UartClass.UartDevice.PollBackend | src/devices.cpp:509-525 | The loop fills the FIFO and starts the wait as specified. |
| UartClass.UartDevice.TickDevice | src/devices.cpp:494-507 | Refines one tick. |
| UartClass.UartDevice.InterruptIdentification | src/devices.cpp:527-551 | Computes the identification register. |
| UartClass.UartDevice.ReadRegister | src/devices.cpp:553-601 | Refines a register read with its side effects. |
| UartClass.UartDevice.WriteRegister | src/devices.cpp:635-682 | Refines a register write. |
| UartClass.UartDevice.TransmitByte | src/devices.cpp:603-618 | Refines transmission, looped or to the backend; `TransmitStream` and `WriteActs` say what is sent. |
| UartClass.UartDevice.SetModemLines | src/devices.cpp:620-633 | Refines the modem control write. |
| UartClass.UartDevice.Read | src/devices.cpp:684-697 | Polls, reads the enabled registers in order and settles; refused past the eighth register. |
| UartClass.UartDevice.Write | src/devices.cpp:699-712 | Writes the strobed registers in order and settles. |
| UartClass.UartDevice.PushInput | src/devices.cpp:428-436 | Appends to what the backend offers. |
| UartClass.UartDevice.ResetDevice | src/devices.cpp:459-476 | Refines reset. |

## Left out

- The xorshift generator and the stall threshold (`src/fabric.hpp:171-185`): READY stalls are a free choice per channel and cycle.
- Error message text, the cycle number in it, the cycle counter's wrap-around and `clear_exit_completed`.
- Devices behind the fabric other than ROM and RAM: their answers are free values, so their own state does not appear in fabric runs.
- Ring buffers inside the fabric class are sequences with a capacity check; `RingBuffers.RingBuffer` is proved separately to behave as such a sequence.
- ROM and RAM inside the fabric and the image loader are byte sequences; `Memory.RamDevice` is proved separately to update its array as they say.
- Segment flags are not kept: nothing in the loader uses them. An image is shorter than 2^64 bytes.
- Files, `mmap`, terminal input, polling and `HostServices`: foreign calls. The UART backend is a byte queue.
- Names of devices and ports, option parsing, property schemas and the registry: devices and ports are numbers.
- CLINT, exit device, single-bit packed accessors and default platform: they would only add easy members.
- Constructor argument checks of the PLIC and UART are preconditions instead of thrown errors.
- UART timing setters while running: both timings are fixed per device.
- Counters are unbounded: the UART idle and poll counters and lsb + width of a packed field do not wrap.
- Devices whose `load` fails after `can_load` succeeded: the device contract rules them out (`docs/platform.md:5-8`).
