/** Typed physical and virtual addresses, the HHDM conversions between them, their
    `{:#x}` debug text, and the byte loops `memset` and `memcpy` (utils/src/mem/mod.rs).

    The HHDM offset is a process-wide constant fixed at boot; here it is the parameter
    `hhdm` of each conversion. */
module Mem {
  import opened Common

  /** A physical address. */
  datatype PhysAddr = PhysAddr(value: usize) {

    /** The HHDM-mapped virtual address of this physical address. */
    function AddHhdmOffset(hhdm: usize): VirtAddr
      requires value + hhdm <= USIZE_MAX
    {
      VirtAddr(value + hhdm)
    }

    /** Address plus offset: an address of the same kind. */
    function AddOffset(rhs: usize): PhysAddr
      requires value + rhs <= USIZE_MAX
    {
      PhysAddr(value + rhs)
    }

    /** Address plus address: a plain word, not an address. */
    function AddAddr(rhs: PhysAddr): usize
      requires value + rhs.value <= USIZE_MAX
    {
      value + rhs.value
    }

    /** Address minus offset: an address of the same kind. */
    function SubOffset(rhs: usize): PhysAddr
      requires rhs <= value
    {
      PhysAddr(value - rhs)
    }

    /** Address minus address: the distance between them, a plain word. */
    function SubAddr(rhs: PhysAddr): usize
      requires rhs.value <= value
    {
      value - rhs.value
    }

    /** The `Debug` text of the address. */
    function Debug(): string
    {
      LowerHex(value)
    }
  }

  /** A virtual address. */
  datatype VirtAddr = VirtAddr(value: usize) {

    /** The physical address behind an HHDM-mapped virtual address. */
    function SubtractHhdmOffset(hhdm: usize): PhysAddr
      requires hhdm <= value
    {
      PhysAddr(value - hhdm)
    }

    function AddOffset(rhs: usize): VirtAddr
      requires value + rhs <= USIZE_MAX
    {
      VirtAddr(value + rhs)
    }

    function AddAddr(rhs: VirtAddr): usize
      requires value + rhs.value <= USIZE_MAX
    {
      value + rhs.value
    }

    function SubOffset(rhs: usize): VirtAddr
      requires rhs <= value
    {
      VirtAddr(value - rhs)
    }

    function SubAddr(rhs: VirtAddr): usize
      requires rhs.value <= value
    {
      value - rhs.value
    }

    function Debug(): string
    {
      LowerHex(value)
    }
  }

  // ---------------------------------------------------------------------------------------
  // HHDM conversions and address arithmetic

  /** Going up into the HHDM and back down returns the physical address one started from. */
  lemma HhdmRoundTrip(p: PhysAddr, hhdm: usize)
    requires p.value + hhdm <= USIZE_MAX
    ensures p.AddHhdmOffset(hhdm).value == p.value + hhdm
    ensures hhdm <= p.AddHhdmOffset(hhdm).value
    ensures p.AddHhdmOffset(hhdm).SubtractHhdmOffset(hhdm) == p
  {
  }

  /** Every HHDM-mapped virtual address is the image of exactly its physical address. */
  lemma HhdmRoundTripVirt(v: VirtAddr, hhdm: usize)
    requires hhdm <= v.value
    ensures v.SubtractHhdmOffset(hhdm).value == v.value - hhdm
    ensures v.SubtractHhdmOffset(hhdm).AddHhdmOffset(hhdm) == v
  {
  }

  /** Moving a physical address by an offset moves its HHDM image by the same offset. */
  lemma HhdmShift(p: PhysAddr, n: usize, hhdm: usize)
    requires p.value + n + hhdm <= USIZE_MAX
    ensures p.AddOffset(n).AddHhdmOffset(hhdm) == p.AddHhdmOffset(hhdm).AddOffset(n)
  {
  }

  /** `(a + n) - n == a`, and the distance from `a` to `a + n` is `n`, for physical addresses. */
  lemma PhysOffsetRoundTrip(a: PhysAddr, n: usize)
    requires a.value + n <= USIZE_MAX
    ensures a.AddOffset(n).SubOffset(n) == a
    ensures a.AddOffset(n).SubAddr(a) == n
  {
  }

  /** `(a - n) + n == a` for physical addresses. */
  lemma PhysSubThenAdd(a: PhysAddr, n: usize)
    requires n <= a.value
    ensures a.SubOffset(n).AddOffset(n) == a
    ensures a.SubAddr(a.SubOffset(n)) == n
  {
  }

  /** `(a + n) - n == a`, and the distance from `a` to `a + n` is `n`, for virtual addresses. */
  lemma VirtOffsetRoundTrip(a: VirtAddr, n: usize)
    requires a.value + n <= USIZE_MAX
    ensures a.AddOffset(n).SubOffset(n) == a
    ensures a.AddOffset(n).SubAddr(a) == n
  {
  }

  /** `(a - n) + n == a` for virtual addresses. */
  lemma VirtSubThenAdd(a: VirtAddr, n: usize)
    requires n <= a.value
    ensures a.SubOffset(n).AddOffset(n) == a
    ensures a.SubAddr(a.SubOffset(n)) == n
  {
  }

  /** The sum of two physical addresses is a plain word: it does not depend on the order of
      the operands, it is where `a` lands when moved by `b`'s value, and subtracting `b`
      from that address gives `a` back. */
  lemma PhysAddAddr(a: PhysAddr, b: PhysAddr)
    requires a.value + b.value <= USIZE_MAX
    ensures a.AddAddr(b) == b.AddAddr(a)
    ensures a.AddAddr(b) == a.AddOffset(b.value).value
    ensures a.AddOffset(b.value).SubAddr(b) == a.value
  {
  }

  /** The same for the sum of two virtual addresses. */
  lemma VirtAddAddr(a: VirtAddr, b: VirtAddr)
    requires a.value + b.value <= USIZE_MAX
    ensures a.AddAddr(b) == b.AddAddr(a)
    ensures a.AddAddr(b) == a.AddOffset(b.value).value
    ensures a.AddOffset(b.value).SubAddr(b) == a.value
  {
  }

  // ---------------------------------------------------------------------------------------
  // `{:#x}` formatting

  /** The lower-case hexadecimal digit of `d`. */
  function HexDigit(d: nat): char
    requires d < 16
  {
    if d < 10 then ('0' as int + d) as char else ('a' as int + d - 10) as char
  }

  predicate IsLowerHexDigit(c: char)
  {
    '0' <= c <= '9' || 'a' <= c <= 'f'
  }

  /** The value of a lower-case hexadecimal digit. */
  function DigitValue(c: char): nat
    requires IsLowerHexDigit(c)
  {
    if c <= '9' then c as int - '0' as int else c as int - 'a' as int + 10
  }

  predicate IsHexText(s: string)
  {
    forall i :: 0 <= i < |s| ==> IsLowerHexDigit(s[i])
  }

  /** The number a string of hexadecimal digits denotes, most significant digit first. */
  function HexValue(s: string): nat
    requires IsHexText(s)
  {
    if s == [] then 0 else 16 * HexValue(s[..|s| - 1]) + DigitValue(s[|s| - 1])
  }

  /** The hexadecimal digits of `n`, most significant first. */
  function HexDigits(n: nat): string
  {
    if n < 16 then [HexDigit(n)] else HexDigits(n / 16) + [HexDigit(n % 16)]
  }

  /** What `{:#x}` prints for `n`. */
  function LowerHex(n: nat): string
  {
    "0x" + HexDigits(n)
  }

  /** The digits are non-empty, lower-case hexadecimal, and carry no leading zero. */
  lemma {:induction false} HexDigitsCanonical(n: nat)
    ensures |HexDigits(n)| > 0
    ensures IsHexText(HexDigits(n))
    ensures HexDigits(n)[0] == '0' <==> n == 0
    ensures n == 0 ==> HexDigits(n) == "0"
  {
    if n >= 16 {
      HexDigitsCanonical(n / 16);
      var s := HexDigits(n / 16);
      assert HexDigits(n) == s + [HexDigit(n % 16)];
      assert HexDigits(n)[0] == s[0];
    }
  }

  /** Reading the digits back gives the number: the text determines the value. */
  lemma {:induction false} HexDigitsRoundTrip(n: nat)
    ensures IsHexText(HexDigits(n))
    ensures HexValue(HexDigits(n)) == n
  {
    HexDigitsCanonical(n);
    if n >= 16 {
      HexDigitsRoundTrip(n / 16);
      var s := HexDigits(n);
      assert s[..|s| - 1] == HexDigits(n / 16);
      assert s[|s| - 1] == HexDigit(n % 16);
    }
  }

  /** The debug text of an address is "0x" followed by its canonical lower-case hexadecimal
      digits ("0x0" for zero), and those digits denote the address. */
  lemma DebugIsCanonicalHex(n: usize)
    ensures PhysAddr(n).Debug() == VirtAddr(n).Debug() == LowerHex(n)
    ensures |LowerHex(n)| >= 3 && LowerHex(n)[..2] == "0x"
    ensures IsHexText(LowerHex(n)[2..])
    ensures LowerHex(n)[2] == '0' <==> n == 0
    ensures n == 0 ==> LowerHex(n) == "0x0"
    ensures HexValue(LowerHex(n)[2..]) == n
  {
    HexDigitsCanonical(n);
    HexDigitsRoundTrip(n);
    assert LowerHex(n)[2..] == HexDigits(n);
  }

  /** Distinct addresses never print alike. */
  lemma LowerHexInjective(m: nat, n: nat)
    ensures LowerHex(m) == LowerHex(n) ==> m == n
  {
    if LowerHex(m) == LowerHex(n) {
      assert HexDigits(m) == LowerHex(m)[2..];
      assert HexDigits(n) == LowerHex(n)[2..];
      HexDigitsRoundTrip(m);
      HexDigitsRoundTrip(n);
    }
  }

  // ---------------------------------------------------------------------------------------
  // Byte loops

  /** Writes `value` into the first `len` bytes of `buf`. */
  method Memset(buf: array<u8>, value: u8, len: usize)
    requires len <= buf.Length
    modifies buf
    ensures forall i :: 0 <= i < len ==> buf[i] == value
    ensures forall i :: len <= i < buf.Length ==> buf[i] == old(buf[i])
  {
    for i := 0 to len
      invariant forall k :: 0 <= k < i ==> buf[k] == value
      invariant forall k :: i <= k < buf.Length ==> buf[k] == old(buf[k])
    {
      buf[i] := value;
    }
  }

  /** Copies the first `len` bytes of `src` into `dst`, one byte at a time. */
  method Memcpy(dst: array<u8>, src: array<u8>, len: usize)
    requires len <= dst.Length && len <= src.Length
    modifies dst
    ensures forall i :: 0 <= i < len ==> dst[i] == old(src[i])
    ensures forall i :: len <= i < dst.Length ==> dst[i] == old(dst[i])
    ensures src != dst ==> src[..] == old(src[..])
  {
    for i := 0 to len
      invariant forall k :: 0 <= k < i ==> dst[k] == old(src[k])
      invariant forall k :: i <= k < dst.Length ==> dst[k] == old(dst[k])
      invariant src != dst ==> src[..] == old(src[..])
    {
      dst[i] := src[i];
    }
  }
}
