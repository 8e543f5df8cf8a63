/** Identifiers and the monotonic, skip-capable id hander behind both the virtual address
    allocator and the VM-id allocator.

    The hander's own source is not part of this model; the class states the behaviour its
    call sites rely on. `handout_and_skip(n)` follows the assumed reading: advance the
    cursor by `n`, then hand out the id it lands on. */
module Ids {
  import opened Common

  /** An identifier. Its value is a natural number: the cursor of an exhausted hander whose
      ceiling is `usize::MAX` sits one above the largest `usize`. */
  datatype Id = Id(value: nat)

  /** The designated maximum id (taken to be `usize::MAX`). */
  const MAX_ID: Id := Id(USIZE_MAX)

  class IdHander {
    /** The id the next `Handout` returns. */
    var next: nat
    /** The largest id this hander ever returns. */
    const max: nat

    /** The number of `Handout` calls that still succeed. */
    function Remaining(): (n: nat)
      reads this
    {
      if next > max then 0 else max + 1 - next
    }

    /** `IdHander::new(max)`: ids from zero up to `max`. */
    constructor (max: Id)
      ensures next == 0 && this.max == max.value
      ensures Remaining() == max.value + 1
    {
      next := 0;
      this.max := max.value;
    }

    /** `IdHander::new_starting_from(start, max)`. */
    constructor StartingFrom(start: Id, max: Id)
      ensures next == start.value && this.max == max.value
    {
      next := start.value;
      this.max := max.value;
    }

    /** `peek_next`: the id the next handout returns, without handing it out. */
    function PeekNext(): (r: Id)
      reads this
    {
      Id(next)
    }

    /** `handout`: the current id and advance by one, or nothing once the cursor passed `max`. */
    method Handout() returns (r: Option<Id>)
      modifies this
      ensures r.None? <==> old(next) > max
      ensures r.Some? ==> r.value == old(PeekNext()) && r.value.value <= max
      ensures r.Some? ==> old(next) <= r.value.value < next
      ensures next == if r.Some? then old(next) + 1 else old(next)
      ensures r.Some? ==> Remaining() == old(Remaining()) - 1
      ensures r.None? <==> old(Remaining()) == 0
      ensures [r] == Handouts(old(next), max, 1)
    {
      if next > max {
        r := None;
      } else {
        r := Some(Id(next));
        next := next + 1;
      }
    }

    /** `handout_and_skip(n)`: skip `n` ids, then hand out the one reached; nothing if that
        one lies beyond `max`. */
    method HandoutAndSkip(n: usize) returns (r: Option<Id>)
      modifies this
      ensures r.None? <==> old(next) + n > max
      ensures r.Some? ==> r.value == Id(old(next) + n) && r.value.value <= max
      ensures next == if r.Some? then old(next) + n + 1 else old(next)
      ensures r.Some? ==> old(next) <= r.value.value < next
    {
      if next + n > max {
        r := None;
      } else {
        r := Some(Id(next + n));
        next := next + n + 1;
      }
    }
  }

  /** `k` successive `Handout` calls on one hander: their results are exactly
      `Handouts(old(next), max, k)`, and the cursor ends where the successful ones left it. */
  method HandoutMany(h: IdHander, k: nat) returns (results: seq<Option<Id>>)
    modifies h
    ensures results == Handouts(old(h.next), h.max, k)
    ensures h.next == if old(h.next) > h.max then old(h.next)
                      else if old(h.next) + k <= h.max + 1 then old(h.next) + k
                      else h.max + 1
  {
    results := [];
    var i := 0;
    while i < k
      invariant 0 <= i <= k
      invariant results + Handouts(h.next, h.max, k - i) == Handouts(old(h.next), h.max, k)
      invariant h.next == if old(h.next) > h.max then old(h.next)
                          else if old(h.next) + i <= h.max + 1 then old(h.next) + i
                          else h.max + 1
    {
      var r := h.Handout();
      results := results + [r];
      i := i + 1;
    }
  }

  /** What `k` successive `Handout` calls return, starting from a cursor at `next`. */
  function Handouts(next: nat, max: nat, k: nat): seq<Option<Id>>
    decreases k
  {
    if k == 0 then []
    else if next > max then [None] + Handouts(next, max, k - 1)
    else [Some(Id(next))] + Handouts(next + 1, max, k - 1)
  }

  /** The `i`-th of successive handouts succeeds exactly when `next + i <= max`, and then
      returns `next + i`: the ids are strictly increasing, hence pairwise distinct, and a
      hander started at `next` succeeds exactly `max - next + 1` times. */
  lemma {:induction false} HandoutsSpec(next: nat, max: nat, k: nat)
    ensures |Handouts(next, max, k)| == k
    ensures forall i :: 0 <= i < k ==> (Handouts(next, max, k)[i].Some? <==> next + i <= max)
    ensures forall i :: 0 <= i < k && Handouts(next, max, k)[i].Some? ==>
              Handouts(next, max, k)[i].value == Id(next + i)
    decreases k
  {
    if k > 0 {
      if next > max {
        HandoutsSpec(next, max, k - 1);
        assert forall i :: 1 <= i < k ==> Handouts(next, max, k)[i] == Handouts(next, max, k - 1)[i - 1];
      } else {
        HandoutsSpec(next + 1, max, k - 1);
        assert forall i :: 1 <= i < k ==> Handouts(next, max, k)[i] == Handouts(next + 1, max, k - 1)[i - 1];
      }
    }
  }
}
