/** Machine words, optional values and the abort outcomes shared by every module. */
module Common {

  /** The largest value of a 64-bit `usize` (the kernel targets x86_64). */
  const USIZE_MAX: nat := 0xffff_ffff_ffff_ffff

  /** A `usize`: a bounded natural number. Every `+` and `-` on it carries a range obligation,
      as debug builds abort on overflow and underflow. */
  type usize = x: nat | x <= USIZE_MAX

  /** A byte. */
  type u8 = x: nat | x < 256

  datatype Option<+T> = None | Some(value: T)

  /** Why the kernel aborted: an `assert!`, an `unwrap`/`expect` on an empty value, or an
      arithmetic overflow in a debug build. */
  datatype Panic =
    | LayoutMismatch       // a slab allocator was handed a foreign layout
    | SlabExhausted        // `unwrap` of the internal pool's failed allocation
    | NotIssued            // a slab was asked to free a pointer it never handed out
    | Misaligned           // the VAA start address is not page aligned
    | InsufficientSpan     // less than the minimum virtual span below the HHDM offset
    | OutOfIds             // `unwrap`/`expect` of an exhausted id hander
    | NotPowerOfTwo        // `align_offset` with an alignment that is not a power of two
    | EmptyMemoryMap       // `last().unwrap()` of an empty memory map
    | Overflow             // `usize` arithmetic out of range

  /** The outcome of an operation that either returns a value or aborts the kernel. */
  datatype Fallible<+T> = Done(value: T) | Panicked(reason: Panic)
}
