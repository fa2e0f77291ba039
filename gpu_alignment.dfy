// `align_gpu_memory(size, 256)` and the bump-pointer capacity check shared
// by both VRAM allocators, as the C code computes them in `u64` and as they
// are evidently meant (exact integers), with the inputs that tell them apart.
module GpuAlignment {
  import opened MachineWords

  /** `GPU_MEMORY_ALIGNMENT`. */
  const ALIGNMENT: nat := 256

  /** `(size + 255) & ~255` evaluated in `u64`: the sum wraps for sizes above `2^64 - 256`. */
  function AlignAsWritten(size: u64): u64
  {
    Wrap64(size + ALIGNMENT - 1) / ALIGNMENT * ALIGNMENT
  }

  /** The least multiple of 256 that is at least `size`. */
  function AlignUp(size: nat): (r: nat)
    ensures r % ALIGNMENT == 0 && size <= r < size + ALIGNMENT
  {
    (size + ALIGNMENT - 1) / ALIGNMENT * ALIGNMENT
  }

  /** `AlignUp` is the least multiple of the alignment not below `size`, and leaves multiples alone. */
  lemma AlignUpIsLeast(size: nat, m: nat)
    ensures m % ALIGNMENT == 0 && size <= m ==> AlignUp(size) <= m
    ensures size % ALIGNMENT == 0 ==> AlignUp(size) == size
  {
  }

  /** Below the wrap-around point the `u64` computation is the exact rounding. */
  lemma AlignAsWrittenExact(size: u64)
    requires size <= TWO_64 - ALIGNMENT
    ensures AlignAsWritten(size) == AlignUp(size)
  {
  }

  /** A nonzero size the `u64` rounding turns into zero. */
  lemma AlignAsWrittenWrapsToZero()
    ensures AlignAsWritten(TWO_64 - 1) == 0
  {
    assert Wrap64(TWO_64 - 1 + ALIGNMENT - 1) == ALIGNMENT - 2;
  }

  // ---------------------------------------------------------------------------
  // The capacity check of a bump allocator
  // ---------------------------------------------------------------------------

  /** `used + aligned > limit` evaluated in `u64`: true means `OUT_OF_MEMORY`. */
  predicate ExhaustedAsWritten(used: u64, aligned: u64, limit: u64)
  {
    Wrap64(used + aligned) > limit
  }

  /** The capacity check on exact integers. */
  predicate Exhausted(used: nat, aligned: nat, limit: nat)
  {
    used + aligned > limit
  }

  /**
   * The `u64` bump allocator as written: `(result is success, address,
   * new offset)` for one request of `size` bytes at `offset` below `limit`.
   */
  function BumpAsWritten(base: u64, offset: u64, limit: u64, size: u64): (bool, u64, u64)
  {
    var aligned := AlignAsWritten(size);
    if size == 0 || ExhaustedAsWritten(offset, aligned, limit) then (false, 0, offset)
    else (true, Wrap64(base + offset), Wrap64(offset + aligned))
  }

  /** The bump allocator on exact integers: the offset never exceeds the limit. */
  function Bump(base: u64, offset: u64, limit: u64, size: u64): (r: (bool, u64, u64))
    requires offset <= limit
    ensures r.0 <==> size != 0 && offset + AlignUp(size) <= limit
    ensures r.0 ==> r.1 == Wrap64(base + offset) && r.2 == offset + AlignUp(size) && r.2 <= limit
    ensures !r.0 ==> r.2 == offset
  {
    if size == 0 || Exhausted(offset, AlignUp(size), limit) then (false, 0, offset)
    else (true, Wrap64(base + offset), offset + AlignUp(size))
  }

  /**
   * As written, with 256 bytes already allocated below a 1 GiB limit, a
   * request for `2^64 - 256` bytes passes the check and wraps the offset back
   * to 0, so the next 256-byte allocation is handed the first one's address.
   */
  lemma BumpAsWrittenReusesAddress(base: u64)
    ensures var first := BumpAsWritten(base, 0, 0x4000_0000, 256);
      var huge := BumpAsWritten(base, first.2, 0x4000_0000, TWO_64 - 256);
      var third := BumpAsWritten(base, huge.2, 0x4000_0000, 256);
      first.0 && huge.0 && third.0 && third.1 == first.1
  {
    assert AlignAsWritten(256) == 256;
    assert AlignAsWritten(TWO_64 - 256) == TWO_64 - 256;
    assert Wrap64(256 + (TWO_64 - 256)) == 0;
  }

  /** On exact integers the same requests are refused once they exceed the limit. */
  lemma BumpRefusesOversized(base: u64)
    ensures var first := Bump(base, 0, 0x4000_0000, 256);
      first.0 && !Bump(base, first.2, 0x4000_0000, TWO_64 - 256).0
  {
  }

  /**
   * Successive successful exact allocations occupy consecutive,
   * non-overlapping offset ranges `[offset, offset + AlignUp(size))`.
   */
  lemma BumpRangesDisjoint(base: u64, offset: u64, limit: u64, s1: u64, s2: u64)
    requires offset <= limit
    ensures var a := Bump(base, offset, limit, s1);
      a.0 ==> var b := Bump(base, a.2, limit, s2);
        b.0 ==> offset + AlignUp(s1) <= a.2 && a.2 + AlignUp(s2) == b.2 && offset < a.2 < b.2
  {
  }
}
