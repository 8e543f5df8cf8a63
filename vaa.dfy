/** The virtual address allocator (kernel/src/mem/vaa.rs): virtual pages form an id space,
    id `n` standing for the address `n * PAGE_SIZE`, handed out by an `IdHander`. */
module Vaa {
  import opened Common
  import opened Mem
  import opened Ids

  /** The basic page size in bytes. */
  const PAGE_SIZE: usize := 0x1000

  /** The least span, in bytes, demanded between the start address and the HHDM offset:
      the literal `8 * 0x1000 * 0x1000 * 0x1000 * 0x1000`, that is 2^51. */
  const MIN_MEM_SPAN: nat := 8 * 0x1000 * 0x1000 * 0x1000 * 0x1000

  /** The ids the allocator hands out before `init_vaa_from_limine` runs. */
  const UNINIT_MAX_ID: Id := Id(1000)

  predicate IsPowerOfTwo(n: nat)
    decreases n
  {
    n == 1 || (n > 1 && n % 2 == 0 && IsPowerOfTwo(n / 2))
  }

  // ---------------------------------------------------------------------------------------
  // The alignment skip

  /** The address reached from `x` after `k` steps of `stride` bytes each. */
  function Step(x: nat, k: nat, stride: nat): nat
  {
    x + k * stride
  }

  /** The language's contract for `align_offset` on a pointer at `x` whose pointee is
      `stride` bytes: `skip` is the least number of steps that reaches a multiple of
      `align`, or `usize::MAX` when no number of steps does. */
  ghost predicate IsAlignOffset(x: nat, align: nat, stride: nat, skip: nat)
  {
    || (&& skip < USIZE_MAX
        && Aligned(Step(x, skip, stride), align)
        && forall k: nat :: k < skip ==> !Aligned(Step(x, k, stride), align))
    || (&& skip == USIZE_MAX
        && forall k: nat :: !Aligned(Step(x, k, stride), align))
  }

  /** `(x as *const ()).align_offset(align)`: the pointee `()` has size zero, so no number
      of steps moves the pointer, and the answer is 0 when `x` is already aligned and
      `usize::MAX` otherwise. */
  function AlignOffsetAsWritten(x: nat, align: nat): (skip: usize)
    requires align > 0
    ensures IsAlignOffset(x, align, 0, skip)
  {
    assert forall k: nat :: Step(x, k, 0) == x;
    if x % align == 0 then 0 else USIZE_MAX
  }

  /** With the skip as written, a handout from a misaligned cursor overflows `skip + count`
      for every positive `count`, while the least skip to the next aligned id stays below
      the alignment. At cursor 1, alignment 2 and one page, the code aborts where one page
      at id 2 was meant. */
  lemma AlignOffsetAsWrittenOverflows(x: nat, align: nat, count: usize)
    requires align > 0 && x % align != 0 && count > 0
    ensures AlignOffsetAsWritten(x, align) + count > USIZE_MAX
    ensures AlignUpOffset(x, align) < align
    ensures AlignOffsetAsWritten(1, 2) + 1 > USIZE_MAX && AlignUpOffset(1, 2) == 1
  {
  }

  /** `x` is a multiple of `align`. */
  predicate Aligned(x: nat, align: nat)
  {
    align > 0 && x % align == 0
  }

  lemma MulAtLeast(a: nat, k: int)
    requires a > 0 && k >= 1
    ensures a * k >= a
  {
  }

  /** Euclidean division is unique: `(a * d + r) % a == r` for a remainder `r` below `a`. */
  lemma ModUnique(a: nat, d: int, r: int)
    requires a > 0 && 0 <= r < a
    ensures (a * d + r) % a == r
  {
    var z := a * d + r;
    var e := z / a;
    var s := z % a;
    assert z == a * e + s;
    assert a * (d - e) == s - r;
    if d - e >= 1 {
      MulAtLeast(a, d - e);
    } else if e - d >= 1 {
      MulAtLeast(a, e - d);
    }
  }

  /** The number of ids to skip so that `x + skip` is a multiple of `align`: the least such
      offset. */
  function AlignUpOffset(x: nat, align: nat): (skip: nat)
    requires align > 0
    ensures Aligned(x + skip, align)
    ensures skip < align
    ensures forall y :: x <= y < x + skip ==> !Aligned(y, align)
  {
    var rem := x % align;
    var q := x / align;
    assert x == align * q + rem;
    if rem == 0 then
      0
    else
      assert x + (align - rem) == align * (q + 1) + 0;
      ModUnique(align, q + 1, 0);
      assert forall y :: x <= y < x + (align - rem) ==> !Aligned(y, align) by {
        forall y | x <= y < x + (align - rem) ensures !Aligned(y, align) {
          assert y == align * q + (rem + (y - x));
          ModUnique(align, q, rem + (y - x));
        }
      }
      align - rem
  }

  /** The corrected skip is what `align_offset` returns for a pointee of one byte, e.g.
      `(x as *const u8).align_offset(align)`. */
  lemma AlignUpOffsetIsByteAlignOffset(x: nat, align: nat)
    requires 0 < align <= USIZE_MAX
    ensures IsAlignOffset(x, align, 1, AlignUpOffset(x, align))
  {
    var skip := AlignUpOffset(x, align);
    assert Step(x, skip, 1) == x + skip;
    forall k: nat | k < skip
      ensures !Aligned(Step(x, k, 1), align)
    {
      assert Step(x, k, 1) == x + k;
    }
  }

  /** With the least skip, the id a handout of `count` pages receives from the assumed
      `handout_and_skip` lies `count` ids past an aligned id: it is aligned exactly when
      `count` is a multiple of the alignment. */
  lemma HandoutAlignment(next: nat, align: nat, count: nat)
    requires align > 0
    ensures (next + AlignUpOffset(next, align) + count) % align == count % align
  {
    var m := next + AlignUpOffset(next, align);
    var q := m / align;
    assert m == align * q;
    assert count == align * (count / align) + count % align;
    assert m + count == align * (q + count / align) + count % align;
    ModUnique(align, q + count / align, count % align);
  }

  // ---------------------------------------------------------------------------------------
  // Construction

  /** The checks `new` makes of its start address, and the first page id it derives. */
  function StartCheck(start: VirtAddr, hhdm: usize): (r: Fallible<nat>)
    ensures r == Panicked(Misaligned) <==> start.value % PAGE_SIZE != 0
    ensures r == Panicked(Overflow) <==> start.value % PAGE_SIZE == 0 && hhdm < start.value
    ensures r == Panicked(InsufficientSpan) <==>
              start.value % PAGE_SIZE == 0 && start.value <= hhdm < start.value + MIN_MEM_SPAN
    ensures r.Done? <==> start.value % PAGE_SIZE == 0 && start.value + MIN_MEM_SPAN <= hhdm
    ensures r.Done? ==> r.value * PAGE_SIZE == start.value && r.value <= MAX_ID.value
  {
    if start.value % PAGE_SIZE != 0 then Panicked(Misaligned)
    else if hhdm < start.value then Panicked(Overflow)
    else if hhdm - start.value < MIN_MEM_SPAN then Panicked(InsufficientSpan)
    else Done(start.value / PAGE_SIZE)
  }

  /** A start address exactly `MIN_MEM_SPAN` below the HHDM offset is accepted, one page
      closer is refused. */
  lemma MinimumSpanBoundary(start: VirtAddr, hhdm: usize)
    requires start.value % PAGE_SIZE == 0 && hhdm == start.value + MIN_MEM_SPAN
    ensures StartCheck(start, hhdm) == Done(start.value / PAGE_SIZE)
    ensures start.value + PAGE_SIZE <= USIZE_MAX ==>
              StartCheck(start.AddOffset(PAGE_SIZE), hhdm) == Panicked(InsufficientSpan)
  {
  }

  /** An HHDM offset of `0x1000_0000_0000` with physical memory ending at `0x8000_0000`
      leaves about 16 TiB, less than the 2^51 bytes demanded: boot aborts. */
  lemma SixteenTebibyteSpanRejected()
    ensures StartCheck(VirtAddr(0x8000_0000), 0x1000_0000_0000) == Panicked(InsufficientSpan)
  {
  }

  /** One entry of the bootloader's memory map. */
  datatype MemoryMapEntry = MemoryMapEntry(base: usize, length: usize)

  /** The first address past an entry. */
  function EntryEnd(e: MemoryMapEntry): nat
  {
    e.base + e.length
  }

  /** The entries are in ascending address order and do not overlap, as a bootloader's
      memory map lists them. */
  predicate Ascending(memMap: seq<MemoryMapEntry>)
  {
    forall i, j :: 0 <= i < j < |memMap| ==> EntryEnd(memMap[i]) <= memMap[j].base
  }

  /** The start address `init_vaa_from_limine` derives: the end of the last map entry. */
  function SeedAddress(memMap: seq<MemoryMapEntry>): (r: Fallible<VirtAddr>)
    ensures r == Panicked(EmptyMemoryMap) <==> memMap == []
    ensures r == Panicked(Overflow) <==>
              memMap != [] && memMap[|memMap| - 1].base + memMap[|memMap| - 1].length > USIZE_MAX
    ensures r.Done? <==> memMap != [] && memMap[|memMap| - 1].base + memMap[|memMap| - 1].length <= USIZE_MAX
    ensures r.Done? ==> r.value.value == memMap[|memMap| - 1].base + memMap[|memMap| - 1].length
    ensures r.Done? && Ascending(memMap) ==> forall e :: e in memMap ==> EntryEnd(e) <= r.value.value
  {
    if memMap == [] then Panicked(EmptyMemoryMap)
    else
      var last := memMap[|memMap| - 1];
      if last.base + last.length > USIZE_MAX then Panicked(Overflow)
      else
        assert Ascending(memMap) ==> forall i :: 0 <= i < |memMap| ==> EntryEnd(memMap[i]) <= EntryEnd(last) by {
          if Ascending(memMap) {
            forall i | 0 <= i < |memMap| ensures EntryEnd(memMap[i]) <= EntryEnd(last) {
              if i < |memMap| - 1 {
                assert EntryEnd(memMap[i]) <= last.base;
              }
            }
          }
        }
        Done(VirtAddr(last.base + last.length))
  }

  // ---------------------------------------------------------------------------------------
  // The allocator

  class VirtualAddressAllocator {
    var hander: IdHander

    /** The hander's ceiling is a `usize`. */
    ghost predicate Valid()
      reads this, hander
    {
      hander.max <= USIZE_MAX
    }

    /** `uninit()`: the placeholder the global starts as. */
    constructor Uninit()
      ensures Valid() && fresh(hander)
      ensures hander.next == 0 && hander.max == UNINIT_MAX_ID.value
    {
      hander := new IdHander(UNINIT_MAX_ID);
    }

    constructor StartingAt(startId: Id)
      ensures Valid() && fresh(hander)
      ensures hander.next == startId.value && hander.max == MAX_ID.value
    {
      hander := new IdHander.StartingFrom(startId, MAX_ID);
    }

    /** `new(start_addr)`: the start must be page aligned and at least `MIN_MEM_SPAN` below
        the HHDM offset; the hander then starts at the start address's page id. */
    static method New(start: VirtAddr, hhdm: usize) returns (r: Fallible<VirtualAddressAllocator>)
      ensures r.Done? <==> StartCheck(start, hhdm).Done?
      ensures r.Panicked? ==> r == Panicked(StartCheck(start, hhdm).reason)
      ensures r.Done? ==> fresh(r.value) && fresh(r.value.hander) && r.value.Valid()
      ensures r.Done? ==> r.value.hander.next == StartCheck(start, hhdm).value
      ensures r.Done? ==> r.value.hander.next * PAGE_SIZE == start.value
      ensures r.Done? ==> r.value.hander.max == MAX_ID.value
    {
      var check := StartCheck(start, hhdm);
      if check.Panicked? {
        return Panicked(check.reason);
      }
      var vaa := new VirtualAddressAllocator.StartingAt(Id(check.value));
      r := Done(vaa);
    }

    /** `handout(count, page_alignment)`, with the skip the least offset to an aligned id.
        Every address it returns is a whole page id times `PAGE_SIZE`, lies at or above the
        cursor it started from and below the one it leaves. */
    method Handout(count: usize, pageAlignment: usize) returns (r: Fallible<VirtAddr>)
      requires Valid()
      modifies hander
      ensures Valid()
      ensures r == Panicked(NotPowerOfTwo) <==> !IsPowerOfTwo(pageAlignment)
      ensures r.Panicked? && r.reason != Overflow ==> hander.next == old(hander.next)
      ensures IsPowerOfTwo(pageAlignment) ==>
                var skip := AlignUpOffset(old(hander.next), pageAlignment);
                var page := old(hander.next) + skip + count;
                && (skip + count > USIZE_MAX ==> r == Panicked(Overflow) && hander.next == old(hander.next))
                && (skip + count <= USIZE_MAX && page > hander.max ==> r == Panicked(OutOfIds))
                && (skip + count <= USIZE_MAX && page <= hander.max ==>
                      && hander.next == page + 1
                      && (page * PAGE_SIZE > USIZE_MAX ==> r == Panicked(Overflow))
                      && (page * PAGE_SIZE <= USIZE_MAX ==> r == Done(VirtAddr(page * PAGE_SIZE))))
      ensures r.Done? ==> r.value.value % PAGE_SIZE == 0
      ensures r.Done? ==> old(hander.next) * PAGE_SIZE <= r.value.value < hander.next * PAGE_SIZE
    {
      var next := hander.PeekNext().value;
      if !IsPowerOfTwo(pageAlignment) {
        return Panicked(NotPowerOfTwo);
      }
      var skip := AlignUpOffset(next, pageAlignment);
      if skip + count > USIZE_MAX {
        return Panicked(Overflow);
      }
      var pageId := hander.HandoutAndSkip(skip + count);
      if pageId.None? {
        return Panicked(OutOfIds);
      }
      if pageId.value.value * PAGE_SIZE > USIZE_MAX {
        return Panicked(Overflow);
      }
      r := Done(VirtAddr(pageId.value.value * PAGE_SIZE));
    }

    /** `handout` exactly as written, with the zero-sized pointee's `align_offset`: from
        an aligned cursor it behaves like `Handout`; from a misaligned one it always aborts. */
    method HandoutAsWritten(count: usize, pageAlignment: usize) returns (r: Fallible<VirtAddr>)
      requires Valid()
      modifies hander
      ensures Valid()
      ensures r == Panicked(NotPowerOfTwo) <==> !IsPowerOfTwo(pageAlignment)
      ensures r.Panicked? && r.reason != Overflow ==> hander.next == old(hander.next)
      ensures IsPowerOfTwo(pageAlignment) && old(hander.next) % pageAlignment != 0 ==>
                r.Panicked? && hander.next == old(hander.next)
      ensures IsPowerOfTwo(pageAlignment) && old(hander.next) % pageAlignment != 0 && count > 0 ==>
                r == Panicked(Overflow)
      ensures IsPowerOfTwo(pageAlignment) && old(hander.next) % pageAlignment == 0 ==>
                var page := old(hander.next) + count;
                && (page > hander.max ==> r == Panicked(OutOfIds) && hander.next == old(hander.next))
                && (page <= hander.max ==>
                      && hander.next == page + 1
                      && (page * PAGE_SIZE > USIZE_MAX ==> r == Panicked(Overflow))
                      && (page * PAGE_SIZE <= USIZE_MAX ==> r == Done(VirtAddr(page * PAGE_SIZE))))
      ensures r.Done? ==> r.value.value % PAGE_SIZE == 0
      ensures r.Done? ==> old(hander.next) * PAGE_SIZE <= r.value.value < hander.next * PAGE_SIZE
    {
      var next := hander.PeekNext().value;
      if !IsPowerOfTwo(pageAlignment) {
        return Panicked(NotPowerOfTwo);
      }
      var skip := AlignOffsetAsWritten(next, pageAlignment);
      if skip + count > USIZE_MAX {
        return Panicked(Overflow);
      }
      var pageId := hander.HandoutAndSkip(skip + count);
      if pageId.None? {
        return Panicked(OutOfIds);
      }
      if pageId.value.value * PAGE_SIZE > USIZE_MAX {
        return Panicked(Overflow);
      }
      r := Done(VirtAddr(pageId.value.value * PAGE_SIZE));
    }
  }

  /** Two successful handouts in a row from one allocator return strictly increasing
      addresses, the second at least `count2 + 1` pages above the first. */
  method SuccessiveHandouts(vaa: VirtualAddressAllocator, count1: usize, align1: usize,
                            count2: usize, align2: usize)
    returns (a: Fallible<VirtAddr>, b: Fallible<VirtAddr>)
    requires vaa.Valid()
    modifies vaa.hander
    ensures vaa.Valid()
    ensures a.Done? && b.Done? ==> a.value.value < b.value.value
    ensures a.Done? && b.Done? ==> b.value.value - a.value.value >= (count2 + 1) * PAGE_SIZE
  {
    a := vaa.Handout(count1, align1);
    b := vaa.Handout(count2, align2);
  }

  /** `init_vaa_from_limine`: the global allocator is replaced by one starting at the end of
      the last memory-map entry, unless that address is refused. */
  method InitFromLimine(vaa: VirtualAddressAllocator, memMap: seq<MemoryMapEntry>, hhdm: usize)
    returns (r: Fallible<()>)
    modifies vaa
    ensures r.Panicked? ==> vaa.hander == old(vaa.hander)
    ensures SeedAddress(memMap).Panicked? ==> r == Panicked(SeedAddress(memMap).reason)
    ensures SeedAddress(memMap).Done? ==>
              var check := StartCheck(SeedAddress(memMap).value, hhdm);
              && (check.Panicked? ==> r == Panicked(check.reason))
              && (check.Done? ==>
                    && r.Done? && fresh(vaa.hander) && vaa.Valid()
                    && vaa.hander.next == check.value && vaa.hander.max == MAX_ID.value)
  {
    var addr := SeedAddress(memMap);
    if addr.Panicked? {
      return Panicked(addr.reason);
    }
    var built := VirtualAddressAllocator.New(addr.value, hhdm);
    if built.Panicked? {
      return Panicked(built.reason);
    }
    vaa.hander := built.value.hander;
    r := Done(());
  }
}
