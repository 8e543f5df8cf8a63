# Kernel memory core: typed addresses, slab allocator, virtual address allocator, vessels

A Dafny model of four pieces of the memory logic of a kernel/hypervisor stack, and of the id
hander they share:

- **Typed addresses** (`Mem`, `mem.dfy`): `PhysAddr` and `VirtAddr` are word-sized values,
  converted into each other by adding or subtracting the HHDM offset. Address ± offset gives
  an address of the same kind, and address ± address gives a plain word. Their `Debug` text
  is `{:#x}`. `memset` and `memcpy` are byte loops over arrays.
- **Id hander** (`Ids`, `ids.dfy`): a monotonic id issuer with a cursor `next` and a ceiling
  `max`. It offers `handout` and `handout_and_skip`.
- **Slab allocator** (`Slab`, `slab.dfy`): `SlabAllocator<T>` pins an internal fixed-layout
  pool to `Layout::new::<T>()`. It aborts on a foreign layout, on pool exhaustion and on
  freeing a pointer it never issued.
- **Virtual address allocator** (`Vaa`, `vaa.dfy`): virtual pages form an id space, with
  id `n` standing for address `n * PAGE_SIZE`. Construction checks page alignment and a
  minimum span below the HHDM offset. `handout` skips up to an aligned id and reserves
  `count` pages through the hander. Boot seeding starts the allocator at the end of the last
  memory-map entry.
- **Vessels** (`Hypervisor`, `hypervisor.dfy`): a guest context holding one id from the
  VM-id allocator (ceiling `0xffff_ffff`) and a backend control block. `run` forwards to
  the block.

Conventions of the model:

- `usize` is a natural number at most 2^64 − 1 (`Common.usize`). Debug builds abort on
  overflow. In the pure address functions every `+` and `-` therefore requires its result to
  be in range. Inside operations that already report aborts, an overflow is reported as
  `Panicked(Overflow)`.
- Every `assert!`, `unwrap` and `expect` of the source is a result `Panicked(reason)`
  (`Common.Fallible`), not a precondition. This makes the abort conditions part of each
  contract.
- The HHDM offset is the parameter `hhdm` of every conversion. The global singletons (`VAA`,
  `VID_ALLOCATOR`) are objects passed explicitly.
- The id hander's own source is not part of this model. Its class states what the call sites
  rely on. `handout_and_skip(n)` follows an assumed contract: advance the cursor by `n`,
  hand out the id reached, and fail when that id exceeds `max`.
  `Id::MAX_ID` is taken to be `usize::MAX`, and the basic page size to be `0x1000`.
- The slab's internal pool is a number of slots plus the set of issued slots. A slot index
  stands for the object pointer.
- A virtualization backend is a value `VirtTech(createBlock, runBlock)`. These are its
  control block's `new(rip)` and its `run`, seen as a state transformer.

Where the documentation and the code disagree, the model follows the code:

- Slab exhaustion aborts through `unwrap` (slab/src/lib.rs:66). It is not reported as
  `AllocError`.
- The minimum span is the literal `8 * 0x1000^4`, which is 2^51 bytes, not the "8TB"
  of the comment beside it. So an HHDM offset of `0x1000_0000_0000` with memory ending at
  `0x8000_0000` is refused at boot (`Vaa.SixteenTebibyteSpanRejected`).

## Model

The source's operations map onto datatype members whose contracts are stated by the lemmas below. `PhysAddr::add_hhdm_offset` is `PhysAddr.AddHhdmOffset` and `VirtAddr::subtract_hhdm_offset` is `VirtAddr.SubtractHhdmOffset`. For each address kind, `impl Add<usize>` is `AddOffset` and `impl Add<Self>` is `AddAddr`. In the same way `impl Sub<usize>` is `SubOffset`, `impl Sub<Self>` is `SubAddr` and `impl Debug` is `Debug`. `IdHander::peek_next` is `Ids.IdHander.PeekNext`, and `Schedulable::id` is `Hypervisor.Vessel.IdOf`.

| member | source | states |
|---|---|---|
| `Mem.HhdmRoundTrip` | utils/src/mem/mod.rs:29-38 | `add_hhdm_offset(p)` is `p + HHDM`, lies at or above the offset, and `subtract_hhdm_offset` brings it back to `p` |
| `Mem.HhdmRoundTripVirt` | utils/src/mem/mod.rs:29-38 | for `v >= HHDM`, `subtract_hhdm_offset(v)` is `v - HHDM` and adding the offset back gives `v` |
| `Mem.HhdmShift` | utils/src/mem/mod.rs:36-38 | moving a physical address by `n` moves its HHDM image by `n` |
| `Mem.PhysOffsetRoundTrip` | utils/src/mem/mod.rs:78-132 | for physical addresses `(a + n) - n == a`, and address − address gives back the offset `n` as a plain word |
| `Mem.PhysSubThenAdd` | utils/src/mem/mod.rs:78-132 | for physical addresses `(a - n) + n == a` when `n <= a`, and `a - (a - n) == n` |
| `Mem.VirtOffsetRoundTrip` | utils/src/mem/mod.rs:70-124 | for virtual addresses `(a + n) - n == a`, and address − address gives back `n` |
| `Mem.VirtSubThenAdd` | utils/src/mem/mod.rs:70-124 | for virtual addresses `(a - n) + n == a` when `n <= a`, and `a - (a - n) == n` |
| `Mem.PhysAddAddr` | utils/src/mem/mod.rs:94-100 | the sum of two physical addresses is a plain word, symmetric in its operands, equal to the first moved by the second's value, and subtracting the second from that address gives the first back |
| `Mem.VirtAddAddr` | utils/src/mem/mod.rs:86-92 | the same for the sum of two virtual addresses |
| `Mem.HexDigitsCanonical` | utils/src/mem/mod.rs:41-51 | the hex digits are non-empty, lower case and free of leading zeros; zero prints as the single digit `0` |
| `Mem.HexDigitsRoundTrip` | utils/src/mem/mod.rs:41-51 | reading the printed digits back as hexadecimal gives the value |
| `Mem.DebugIsCanonicalHex` | utils/src/mem/mod.rs:41-51 | both address kinds print `"0x"` followed by the canonical lower-case hex digits of the value (`"0x0"` for 0), and those digits denote the value |
| `Mem.LowerHexInjective` | utils/src/mem/mod.rs:41-51 | two addresses with the same debug text are equal |
| `Mem.Memset` | utils/src/mem/mod.rs:152-159 | every byte below `len` becomes `value`; every byte from `len` on is unchanged |
| `Mem.Memcpy` | utils/src/mem/mod.rs:161-168 | every byte below `len` of `dst` becomes the old byte of `src`; `dst` from `len` on is unchanged, and so is a distinct `src` (also correct when both are the same buffer) |
| `Ids.IdHander.constructor` | kernel/src/mem/vaa.rs:42 | `new(max)` starts the cursor at 0 with ceiling `max`, so `max + 1` handouts remain |
| `Ids.IdHander.StartingFrom` | kernel/src/mem/vaa.rs:35 | `new_starting_from(start, max)` starts the cursor at `start` with ceiling `max` |
| `Ids.IdHander.Handout` | hypervisor/src/lib.rs:54 | gives nothing exactly when the cursor passed `max`; otherwise it gives the old cursor (the `peek_next` value) and advances by one, so the remaining count drops by one; agrees with the first of `Handouts` |
| `Ids.IdHander.HandoutAndSkip` | kernel/src/mem/vaa.rs:51-54 | fails exactly when `next + n > max`; otherwise it gives `next + n` and leaves the cursor just above it |
| `Ids.HandoutMany` | hypervisor/src/lib.rs:54 | `k` successive `handout` calls on one hander return exactly `Handouts(next, max, k)`, and the cursor ends at `next + k`, or at `max + 1` when the hander runs out during the calls; a hander whose cursor is already past `max` keeps its cursor |
| `Ids.HandoutsSpec` | hypervisor/src/lib.rs:54 | the `i`-th of successive handouts succeeds exactly when `next + i <= max` and then returns `next + i`: ids strictly increase, and the hander succeeds exactly `max - next + 1` times |
| `Slab.PoolFullIff` | slab/src/lib.rs:66 | a pool has no free slot exactly when as many slots are issued as it has, and never more |
| `Slab.InternalSlabAllocator.constructor` | slab/src/lib.rs:42 | the internal pool starts with the given layout and no slot issued |
| `Slab.InternalSlabAllocator.Allocate` | slab/src/lib.rs:66 | fails exactly when every slot is issued; otherwise issues one slot inside the pool that was not issued, and nothing else changes |
| `Slab.InternalSlabAllocator.Free` | slab/src/lib.rs:86 | reports success exactly when the slot was issued, and afterwards the slot is free |
| `Slab.SlabAllocator.constructor` | slab/src/lib.rs:41-47 | `new()` pins the internal pool to exactly the layout of `T`, with nothing issued |
| `Slab.SlabAllocator.Allocate` | slab/src/lib.rs:57-75 | aborts exactly on a foreign layout, or (through `unwrap`) on an exhausted pool; it never returns `AllocError`; on success the block has length `layout.size()` and starts at a newly issued slot that was free, the only change to the issued set |
| `Slab.SlabAllocator.Deallocate` | slab/src/lib.rs:77-90 | aborts exactly on a foreign layout, or on a pointer the pool did not issue; otherwise exactly that slot becomes free |
| `Slab.AllocateThenDeallocate` | slab/src/lib.rs:57-90 | allocating with the pinned layout from a pool that is not full, then freeing the block, succeeds and restores the issued set |
| `Vaa.AlignOffsetAsWritten` | kernel/src/mem/vaa.rs:49 | the skip as written meets the language's `align_offset` contract for a pointee of size zero: the least number of steps to an aligned address, or `usize::MAX` when no number of steps reaches one |
| `Vaa.AlignUpOffsetIsByteAlignOffset` | kernel/src/mem/vaa.rs:49 | the corrected skip meets the same `align_offset` contract for a one-byte pointee, which is the skip the handout evidently intends |
| `Vaa.AlignOffsetAsWrittenOverflows` | kernel/src/mem/vaa.rs:49-54 | from a misaligned cursor, the skip as written plus any positive count overflows `usize`; the least skip stays below the alignment (cursor 1, alignment 2: skip 1) |
| `Vaa.AlignUpOffset` | kernel/src/mem/vaa.rs:48-49 | the skip takes the cursor to a multiple of the alignment, is below the alignment, and no smaller skip does so |
| `Vaa.HandoutAlignment` | kernel/src/mem/vaa.rs:48-56 | after the least skip, the id `handout_and_skip` returns is congruent to `count` modulo the alignment |
| `Vaa.StartCheck` | kernel/src/mem/vaa.rs:18-33 | `new` aborts exactly when the start is not page aligned, lies above the HHDM offset, or is less than `MIN_MEM_SPAN` below it; otherwise the first page id times `PAGE_SIZE` is the start address |
| `Vaa.MinimumSpanBoundary` | kernel/src/mem/vaa.rs:20-29 | a start exactly `MIN_MEM_SPAN` below the offset is accepted, and one page closer is refused |
| `Vaa.SixteenTebibyteSpanRejected` | kernel/src/mem/vaa.rs:20-29 | HHDM `0x1000_0000_0000` with start `0x8000_0000` is refused for too small a span |
| `Vaa.SeedAddress` | kernel/src/mem/vaa.rs:68-69 | an empty memory map aborts, and so does a last entry whose `base + length` overflows; otherwise the start address is that end. When the entries are ascending and do not overlap, it lies at or above the end of every entry: it is the tail of the map |
| `Vaa.VirtualAddressAllocator.Uninit` | kernel/src/mem/vaa.rs:40-44 | `uninit()` holds a hander with cursor 0 and ceiling 1000 |
| `Vaa.VirtualAddressAllocator.StartingAt` | kernel/src/mem/vaa.rs:33-36 | the hander starts at the given page id with ceiling `Id::MAX_ID` |
| `Vaa.VirtualAddressAllocator.New` | kernel/src/mem/vaa.rs:18-37 | succeeds exactly when `StartCheck` does, and aborts for the same reason; on success the hander's cursor is `start / PAGE_SIZE` (its page is the start address) and its ceiling is `Id::MAX_ID` |
| `Vaa.VirtualAddressAllocator.Handout` | kernel/src/mem/vaa.rs:47-57 | a non-power-of-two alignment aborts; otherwise it calls `handout_and_skip(skip + count)` with the least skip, so the cursor moves on `skip + count + 1` ids and the last one is returned, and it aborts when the hander is exhausted or the address overflows; a returned address is `page_id * PAGE_SIZE`, so a multiple of `PAGE_SIZE`, at or above the old cursor's address and below the new one's |
| `Vaa.VirtualAddressAllocator.HandoutAsWritten` | kernel/src/mem/vaa.rs:47-57 | with the skip as written, every handout from a misaligned cursor aborts (by overflow when `count > 0`) and every handout from an aligned one behaves like `Handout`: it aborts when the hander is exhausted or `page_id * PAGE_SIZE` overflows, and otherwise returns that page-aligned address, at or above the old cursor's address and below the new one's |
| `Vaa.SuccessiveHandouts` | kernel/src/mem/vaa.rs:47-57 | two successful handouts in a row return strictly increasing addresses, and the second lies at least `count2 + 1` pages above the first. So two `handout(4, 0x1000)` calls in a row differ by at least `4 * PAGE_SIZE` |
| `Vaa.InitFromLimine` | kernel/src/mem/vaa.rs:61-73 | aborts when the map is empty or `new` refuses the derived address, leaving the allocator alone; otherwise the global's hander is replaced by a fresh one starting at that address's page id |
| `Hypervisor.NewVidAllocator` | hypervisor/src/lib.rs:22 | the VM-id allocator starts at 0 with ceiling `0xffff_ffff`: 2^32 ids remain |
| `Hypervisor.VidExhaustionBoundary` | hypervisor/src/lib.rs:22 | successive handouts from a fresh VM-id allocator give ids `0 .. 0xffff_ffff` in order, and the `0x1_0000_0001`-th fails |
| `Hypervisor.DrainVidAllocator` | hypervisor/src/lib.rs:22 | `0x1_0000_0001` handouts from a fresh VM-id allocator, made through `handout` itself, give ids `0 .. 0xffff_ffff` in order and then a failure |
| `Hypervisor.Vessel.constructor` | hypervisor/src/lib.rs:53-57 | a vessel holds the given id and control block |
| `Hypervisor.NewVessel` | hypervisor/src/lib.rs:52-58 | aborts (through `unwrap`) exactly when the VM-id allocator is exhausted; otherwise the vessel's `id()` is the one id handed out, the allocator advances by one, and the control block is the backend's block for `rip`, whose `new(rip)` is taken never to abort |
| `Hypervisor.Vessel.Run` | hypervisor/src/lib.rs:78-80 | `run()` applies the backend's run to the control block and changes nothing else; `id()` is unchanged |
| `Hypervisor.NewVesselsDistinct` | hypervisor/src/lib.rs:52-58 | vessels created one after another from one allocator are distinct and have strictly increasing, hence distinct, ids. The first succeeds exactly when the cursor is at most `max`, and the second exactly when the cursor plus one is. The first gets the old cursor and the second the one after it, and running the first leaves both ids alone |

## Findings

| source | as written | input that shows it | evidently intended | confidence | as-written member | corrected member |
|---|---|---|---|---|---|---|
| kernel/src/mem/vaa.rs:49 | The skip is computed with `align_offset` on a pointer to `()`. That pointee has size zero, so the result is 0 for an aligned cursor and `usize::MAX` otherwise. `skip + count` then overflows and the handout aborts. | hander cursor 1, `page_alignment` 2, `count` 1 | the least number of ids up to the next aligned id (here 1) | not executed; rests on the language's documented `align_offset` result for zero-sized pointees | `Vaa.AlignOffsetAsWrittenOverflows` | `Vaa.AlignUpOffset` |

`Vaa.VirtualAddressAllocator.HandoutAsWritten` models the whole handout as written. The corrected `Handout`, which the rest of the model uses, takes its skip from `Vaa.AlignUpOffset`.

## Left out

- `Vaa.VirtualAddressAllocator.Handout`: it does not promise that the returned address is aligned to `page_alignment`. It also does not promise that successive reserved ranges stay apart. Under the assumed `handout_and_skip`, the returned id is the one after the skipped and reserved ids, so neither holds in general. `Vaa.HandoutAlignment` states what does hold.
- `Ids.IdHander.HandoutAndSkip`: the hander's source is not part of this model, and this contract is an assumed one, not taken from its code. The same holds for the `new`, `new_starting_from`, `peek_next` and `handout` contracts, which are inferred from their call sites.
- `Ids.IdHander`: the cursor is an unbounded natural. What the real hander does when its cursor passes `usize::MAX` is not modelled.
- `Slab.SlabAllocator.Allocate`: the `Err(AllocError)` path is never taken. It guards a null cell pointer, and the model has none.
- `Mem.Memset` and `Mem.Memcpy`: they work on whole arrays from index 0. Raw-pointer offsets, volatile access and regions that overlap at different offsets are not modelled.
- `SpinLock`, `SpinLockable` and the locking of the global statics `VAA`, `VID_ALLOCATOR` and `SCHEDULER` are concurrency. Each singleton is a single object passed explicitly. `unsafe impl Sync` for the slab allocator is a type-level thread-safety claim and is also left out.
- `FastLazyStatic`: the HHDM offset is a parameter.
- `logger::info!` at vaa.rs:31 is I/O. The check that `init_vaa_from_limine` is not run in a test build is build configuration.
- `Svm::start()`, the `svm` module, `scheduler::Constant` and the commented-out scheduler wiring in `start()` are not part of this model. They are hardware enablement and an external scheduler.
- The `From` conversions from raw pointers and `NonNull` are pointer provenance.
- `Box` with the slab allocator, `PhantomData` and the `VirtTech`/`Vesselable` trait plumbing are left out. The control block is an abstract value, and how the backend's `new(rip)` allocates it is not modelled: that call is taken never to abort, so `Hypervisor.NewVessel` aborts only when the VM-id allocator is exhausted.
- The internal slab algorithm, `heap`, `mmio`, the id hander, `BASIC_PAGE_SIZE` and the limine entry type are not part of this model. They appear only at their interfaces: a pool of slots, the hander class, the constant `0x1000`, and an entry holding `(base, length)` with its `u64` fields as `usize`.
- `sanity_assert!` is treated as an active assertion.
