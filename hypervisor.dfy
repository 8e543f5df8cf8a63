/** Guest execution contexts (hypervisor/src/lib.rs): a `Vessel` pairs an id drawn from the
    VM-id allocator with the control block of one virtualization backend, and is what the
    scheduler runs.

    The backend is abstract: it is the pair of its control block's `new(rip)` and `run`,
    the latter seen as a function from the block's state before a run to its state after. */
module Hypervisor {
  import opened Common
  import opened Ids

  /** The largest VM id, `VID_ALLOCATOR`'s ceiling. */
  const MAX_VID: Id := Id(0xffff_ffff)

  /** A virtualization backend, seen through its control block type `C`. */
  datatype VirtTech<!C> = VirtTech(createBlock: usize -> C, runBlock: C -> C)

  /** `VID_ALLOCATOR`: ids from zero to `0xffff_ffff`, 2^32 of them. */
  method NewVidAllocator() returns (vids: IdHander)
    ensures fresh(vids)
    ensures vids.next == 0 && vids.max == MAX_VID.value
    ensures vids.Remaining() == 0x1_0000_0000
  {
    vids := new IdHander(MAX_VID);
  }

  /** A fresh VM-id allocator hands out ids `0 .. 0xffff_ffff` in order, and its
      `0x1_0000_0001`-th handout fails. */
  lemma VidExhaustionBoundary()
    ensures |Handouts(0, MAX_VID.value, 0x1_0000_0001)| == 0x1_0000_0001
    ensures forall i :: 0 <= i < 0x1_0000_0000 ==>
              Handouts(0, MAX_VID.value, 0x1_0000_0001)[i] == Some(Id(i))
    ensures Handouts(0, MAX_VID.value, 0x1_0000_0001)[0x1_0000_0000] == None
  {
    HandoutsSpec(0, MAX_VID.value, 0x1_0000_0001);
  }

  /** Draining a fresh VM-id allocator through `handout` itself: ids `0 .. 0xffff_ffff` in
      order, then a failure. */
  method DrainVidAllocator() returns (results: seq<Option<Id>>)
    ensures |results| == 0x1_0000_0001
    ensures forall i :: 0 <= i < 0x1_0000_0000 ==> results[i] == Some(Id(i))
    ensures results[0x1_0000_0000] == None
  {
    var vids := NewVidAllocator();
    results := HandoutMany(vids, 0x1_0000_0001);
    VidExhaustionBoundary();
  }

  /** One guest execution context. */
  class Vessel<C> {
    var id: Id
    var control: C

    constructor (id: Id, control: C)
      ensures this.id == id && this.control == control
    {
      this.id := id;
      this.control := control;
    }

    /** `Schedulable::id`. */
    function IdOf(): Id
      reads this
    {
      id
    }

    /** `Schedulable::run`: one run of the control block; the id stays. */
    method Run(tech: VirtTech<C>)
      modifies this`control
      ensures control == tech.runBlock(old(control))
      ensures IdOf() == old(IdOf())
    {
      control := tech.runBlock(control);
    }
  }

  /** `Vessel::new(rip)`: takes exactly one id from the VM-id allocator (aborting, through
      `unwrap`, when it is exhausted) and the backend's control block built for `rip`. */
  method NewVessel<C>(rip: usize, tech: VirtTech<C>, vids: IdHander) returns (r: Fallible<Vessel<C>>)
    modifies vids
    ensures r == Panicked(OutOfIds) <==> old(vids.next) > vids.max
    ensures r.Panicked? ==> r.reason == OutOfIds && vids.next == old(vids.next)
    ensures r.Done? ==> fresh(r.value)
    ensures r.Done? ==> r.value.IdOf() == Id(old(vids.next)) && vids.next == old(vids.next) + 1
    ensures r.Done? ==> r.value.control == tech.createBlock(rip)
  {
    var id := vids.Handout();
    if id.None? {
      return Panicked(OutOfIds);
    }
    var vessel := new Vessel(id.value, tech.createBlock(rip));
    r := Done(vessel);
  }

  /** Vessels created one after another from the same allocator have distinct ids, and
      running the first does not change either id. */
  method NewVesselsDistinct<C>(rip1: usize, rip2: usize, tech: VirtTech<C>, vids: IdHander)
    returns (a: Fallible<Vessel<C>>, b: Fallible<Vessel<C>>)
    modifies vids
    ensures a.Done? && b.Done? ==> a.value != b.value && a.value.IdOf() != b.value.IdOf()
    ensures a.Done? && b.Done? ==> a.value.IdOf().value < b.value.IdOf().value < vids.next
    ensures a.Done? ==> a.value.IdOf() == Id(old(vids.next))
    ensures b.Done? ==> b.value.IdOf() == Id(old(vids.next) + 1)
    ensures a.Done? <==> old(vids.next) <= vids.max
    ensures b.Done? <==> old(vids.next) + 1 <= vids.max
  {
    a := NewVessel(rip1, tech, vids);
    b := NewVessel(rip2, tech, vids);
    if a.Done? && b.Done? {
      a.value.Run(tech);
    }
  }
}
