/** The type-pinned slab allocator (slab/src/lib.rs) over an abstract fixed-capacity pool.

    The internal pool's own algorithm is not part of this model: it is a number of slots, a
    set of issued slots, an `allocate` that issues some free slot or reports exhaustion, and a
    `free` that reports whether the slot was issued. A slot index stands for the object
    pointer. */
module Slab {
  import opened Common

  /** A `core::alloc::Layout`: size and alignment in bytes. */
  datatype Layout = Layout(size: usize, align: usize)

  /** `NonNull<[u8]>`: the start of an object and the length of the byte slice. */
  datatype Block = Block(start: nat, len: usize)

  datatype AllocError = AllocError

  datatype AllocResult = Ok(block: Block) | Err(error: AllocError)

  /** Every issued slot lies inside the pool. */
  ghost predicate InPool(issued: set<nat>, capacity: nat)
  {
    forall s :: s in issued ==> s < capacity
  }

  /** The slots `0 .. n-1`. */
  function Slots(n: nat): (r: set<nat>)
    ensures forall s: nat :: s in r <==> s < n
    ensures |r| == n
  {
    if n == 0 then {}
    else
      var prev := Slots(n - 1);
      assert n - 1 !in prev;
      prev + {n - 1}
  }

  /** A pool is exhausted, i.e. has no free slot, exactly when as many slots are issued as
      it has. */
  lemma PoolFullIff(issued: set<nat>, capacity: nat)
    requires InPool(issued, capacity)
    ensures (forall s: nat :: s < capacity ==> s in issued) <==> |issued| == capacity
    ensures |issued| <= capacity
  {
    var all := Slots(capacity);
    var free := all - issued;
    assert issued <= all;
    assert all == issued + free && issued * free == {};
    assert |all| == |issued| + |free|;
    assert (forall s: nat :: s < capacity ==> s in issued) <==> free == {};
  }

  /** The internal fixed-layout pool. */
  class InternalSlabAllocator {
    const layout: Layout
    const capacity: nat
    var issued: set<nat>

    ghost predicate Valid()
      reads this
    {
      InPool(issued, capacity)
    }

    constructor (layout: Layout, capacity: nat)
      ensures Valid()
      ensures this.layout == layout && this.capacity == capacity && issued == {}
    {
      this.layout := layout;
      this.capacity := capacity;
      issued := {};
    }

    /** Issue some free slot, or nothing when every slot is issued. */
    method Allocate() returns (r: Option<nat>)
      requires Valid()
      modifies this
      ensures Valid()
      ensures r.None? <==> |old(issued)| == capacity
      ensures r.Some? ==> r.value < capacity && r.value !in old(issued)
      ensures issued == if r.Some? then old(issued) + {r.value} else old(issued)
    {
      PoolFullIff(issued, capacity);
      var free := Slots(capacity) - issued;
      if free == {} {
        r := None;
      } else {
        var s :| s in free;
        issued := issued + {s};
        r := Some(s);
      }
    }

    /** Return `slot` to the pool; `false` when it was not issued. */
    method Free(slot: nat) returns (ok: bool)
      requires Valid()
      modifies this
      ensures Valid()
      ensures ok <==> slot in old(issued)
      ensures issued == old(issued) - {slot}
    {
      ok := slot in issued;
      issued := issued - {slot};
    }
  }

  /** `SlabAllocator<T>`: a pool bound to the layout of one type `T`. */
  class SlabAllocator {
    /** `Layout::new::<T>()`. */
    const typeLayout: Layout
    const allocator: InternalSlabAllocator

    ghost predicate Valid()
      reads this, allocator
    {
      allocator.Valid() && allocator.layout == typeLayout
    }

    /** `SlabAllocator::<T>::new()`: the internal pool is pinned to the layout of `T`. */
    constructor (typeLayout: Layout, capacity: nat)
      ensures Valid() && fresh(allocator)
      ensures this.typeLayout == typeLayout && allocator.layout == typeLayout
      ensures allocator.capacity == capacity && allocator.issued == {}
    {
      this.typeLayout := typeLayout;
      allocator := new InternalSlabAllocator(typeLayout, capacity);
    }

    /** `Allocator::allocate`. A foreign layout aborts; an exhausted pool aborts through
        `unwrap` rather than returning `AllocError`. The cell pointer is never null, so
        `Err(AllocError)` is never returned. */
    method Allocate(layout: Layout) returns (r: Fallible<AllocResult>)
      requires Valid()
      modifies allocator
      ensures Valid()
      ensures r == Panicked(LayoutMismatch) <==> layout != typeLayout
      ensures r == Panicked(SlabExhausted) <==>
                layout == typeLayout && |old(allocator.issued)| == allocator.capacity
      ensures r.Done? <==> layout == typeLayout && |old(allocator.issued)| < allocator.capacity
      ensures r.Panicked? ==> allocator.issued == old(allocator.issued)
      ensures r.Done? ==> r.value.Ok?
      ensures r.Done? ==> r.value.block.len == layout.size
      ensures r.Done? ==> r.value.block.start < allocator.capacity
      ensures r.Done? ==> r.value.block.start !in old(allocator.issued)
      ensures r.Done? ==> allocator.issued == old(allocator.issued) + {r.value.block.start}
    {
      if layout != typeLayout {
        return Panicked(LayoutMismatch);
      }
      PoolFullIff(allocator.issued, allocator.capacity);
      var slot := allocator.Allocate();
      if slot.None? {
        return Panicked(SlabExhausted);
      }
      r := Done(Ok(Block(slot.value, layout.size)));
    }

    /** `Allocator::deallocate`. A foreign layout aborts, and so does a pointer the pool did
        not issue; otherwise exactly that slot is freed. */
    method Deallocate(ptr: nat, layout: Layout) returns (r: Fallible<()>)
      requires Valid()
      modifies allocator
      ensures Valid()
      ensures r == Panicked(LayoutMismatch) <==> layout != typeLayout
      ensures r == Panicked(NotIssued) <==>
                layout == typeLayout && ptr !in old(allocator.issued)
      ensures r.Done? <==> layout == typeLayout && ptr in old(allocator.issued)
      ensures allocator.issued == if r.Done? then old(allocator.issued) - {ptr}
                                 else old(allocator.issued)
    {
      if layout != typeLayout {
        return Panicked(LayoutMismatch);
      }
      var ok := allocator.Free(ptr);
      if !ok {
        return Panicked(NotIssued);
      }
      r := Done(());
    }
  }

  /** Allocating an object and handing it straight back leaves the pool as it was. */
  method AllocateThenDeallocate(slab: SlabAllocator) returns (r: Fallible<()>)
    requires slab.Valid()
    requires |slab.allocator.issued| < slab.allocator.capacity
    modifies slab.allocator
    ensures slab.Valid()
    ensures r.Done?
    ensures slab.allocator.issued == old(slab.allocator.issued)
  {
    var a := slab.Allocate(slab.typeLayout);
    r := slab.Deallocate(a.value.block.start, slab.typeLayout);
  }
}
