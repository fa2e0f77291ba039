// The bit-level helpers of the shared type header: the IEEE 754 field masks of
// the binary32 and binary64 interchange formats (section 3.4 of IEEE 754-2008),
// the raw-bits view of `f32`, byte swapping and the little-endian conversions.
module GibgoTypes {

  // ---------------------------------------------------------------------------
  // IEEE 754 masks and shifts
  // ---------------------------------------------------------------------------

  const F32_SIGN_MASK: bv32 := 0x8000_0000
  const F32_EXPONENT_MASK: bv32 := 0x7F80_0000
  const F32_MANTISSA_MASK: bv32 := 0x007F_FFFF
  const F32_EXPONENT_BIAS: int := 127
  const F32_EXPONENT_SHIFT: nat := 23

  const F64_SIGN_MASK: bv64 := 0x8000_0000_0000_0000
  const F64_EXPONENT_MASK: bv64 := 0x7FF0_0000_0000_0000
  const F64_MANTISSA_MASK: bv64 := 0x000F_FFFF_FFFF_FFFF
  const F64_EXPONENT_BIAS: int := 1023
  const F64_EXPONENT_SHIFT: nat := 52

  /** The three binary32 masks are pairwise disjoint and together cover all 32 bits. */
  lemma F32MasksPartition()
    ensures F32_SIGN_MASK & F32_EXPONENT_MASK == 0
    ensures F32_SIGN_MASK & F32_MANTISSA_MASK == 0
    ensures F32_EXPONENT_MASK & F32_MANTISSA_MASK == 0
    ensures F32_SIGN_MASK | F32_EXPONENT_MASK | F32_MANTISSA_MASK == 0xFFFF_FFFF
    ensures F32_EXPONENT_MASK == 0xFF << F32_EXPONENT_SHIFT
    ensures F32_MANTISSA_MASK == (1 << F32_EXPONENT_SHIFT) - 1
  {
  }

  /** The three binary64 masks are pairwise disjoint and together cover all 64 bits. */
  lemma F64MasksPartition()
    ensures F64_SIGN_MASK & F64_EXPONENT_MASK == 0
    ensures F64_SIGN_MASK & F64_MANTISSA_MASK == 0
    ensures F64_EXPONENT_MASK & F64_MANTISSA_MASK == 0
    ensures F64_SIGN_MASK | F64_EXPONENT_MASK | F64_MANTISSA_MASK == 0xFFFF_FFFF_FFFF_FFFF
    ensures F64_EXPONENT_MASK == 0x7FF << F64_EXPONENT_SHIFT
    ensures F64_MANTISSA_MASK == (1 << F64_EXPONENT_SHIFT) - 1
  {
  }

  // ---------------------------------------------------------------------------
  // f32 as its raw bits
  // ---------------------------------------------------------------------------

  /** `f32` is only ever handled through its 32-bit `bits` member. */
  datatype F32 = F32(bits: bv32)

  /** The `ieee754` bit-field view of an `f32`: sign:1, exponent:8, mantissa:23. */
  datatype Ieee754Fields = Ieee754Fields(sign: bv32, exponent: bv32, mantissa: bv32)

  function Fields(f: F32): (r: Ieee754Fields)
    ensures r.sign <= 1 && r.exponent <= 0xFF && r.mantissa <= 0x7F_FFFF
    ensures (r.sign << 31) | (r.exponent << 23) | r.mantissa == f.bits
  {
    Ieee754Fields(f.bits >> 31, (f.bits >> 23) & 0xFF, f.bits & 0x7F_FFFF)
  }

  // ---------------------------------------------------------------------------
  // Byte order
  // ---------------------------------------------------------------------------

  /** Byte `i` (0 = least significant) of a 16-, 32- or 64-bit word. */
  function Byte16(x: bv16, i: nat): bv16
    requires i < 2
  {
    if i == 0 then x & 0xFF else x >> 8
  }

  function Byte32(x: bv32, i: nat): bv32
    requires i < 4
  {
    match i
    case 0 => x & 0xFF
    case 1 => (x >> 8) & 0xFF
    case 2 => (x >> 16) & 0xFF
    case _ => x >> 24
  }

  function Byte64(x: bv64, i: nat): bv64
    requires i < 8
  {
    match i
    case 0 => x & 0xFF
    case 1 => (x >> 8) & 0xFF
    case 2 => (x >> 16) & 0xFF
    case 3 => (x >> 24) & 0xFF
    case 4 => (x >> 32) & 0xFF
    case 5 => (x >> 40) & 0xFF
    case 6 => (x >> 48) & 0xFF
    case _ => x >> 56
  }

  function U16SwapBytes(value: bv16): (r: bv16)
    ensures Byte16(r, 0) == Byte16(value, 1) && Byte16(r, 1) == Byte16(value, 0)
  {
    (value << 8) | (value >> 8)
  }

  function U32SwapBytes(value: bv32): (r: bv32)
    ensures forall i :: 0 <= i < 4 ==> Byte32(r, i) == Byte32(value, 3 - i)
  {
    ((value << 24) & 0xFF00_0000) |
    ((value << 8) & 0x00FF_0000) |
    ((value >> 8) & 0x0000_FF00) |
    ((value >> 24) & 0x0000_00FF)
  }

  function U64SwapBytes(value: bv64): (r: bv64)
    ensures Byte64(r, 0) == Byte64(value, 7) && Byte64(r, 1) == Byte64(value, 6)
    ensures Byte64(r, 2) == Byte64(value, 5) && Byte64(r, 3) == Byte64(value, 4)
    ensures Byte64(r, 4) == Byte64(value, 3) && Byte64(r, 5) == Byte64(value, 2)
    ensures Byte64(r, 6) == Byte64(value, 1) && Byte64(r, 7) == Byte64(value, 0)
  {
    ((value << 56) & 0xFF00_0000_0000_0000) |
    ((value << 40) & 0x00FF_0000_0000_0000) |
    ((value << 24) & 0x0000_FF00_0000_0000) |
    ((value << 8) & 0x0000_00FF_0000_0000) |
    ((value >> 8) & 0x0000_0000_FF00_0000) |
    ((value >> 24) & 0x0000_0000_00FF_0000) |
    ((value >> 40) & 0x0000_0000_0000_FF00) |
    ((value >> 56) & 0x0000_0000_0000_00FF)
  }

  lemma U16SwapInvolution(x: bv16)
    ensures U16SwapBytes(U16SwapBytes(x)) == x
  {
  }

  lemma U32SwapInvolution(x: bv32)
    ensures U32SwapBytes(U32SwapBytes(x)) == x
  {
  }

  lemma U64SwapInvolution(x: bv64)
    ensures U64SwapBytes(U64SwapBytes(x)) == x
  {
  }

  /**
   * `u32_to_le`: the word in little-endian byte order. The header picks the
   * branch at compile time from the host's byte order; here it is a parameter.
   * When the host's order is not detected at compile time, the `#if` reads
   * `GIBGO_LITTLE_ENDIAN` as 0 and the word is swapped.
   */
  function U32ToLe(value: bv32, littleEndianHost: bool): (r: bv32)
    ensures littleEndianHost ==> r == value
    ensures forall i :: 0 <= i < 4 ==>
      Byte32(r, i) == Byte32(value, if littleEndianHost then i else 3 - i)
  {
    if littleEndianHost then value else U32SwapBytes(value)
  }

  function U32FromLe(value: bv32, littleEndianHost: bool): (r: bv32)
    ensures littleEndianHost ==> r == value
    ensures forall i :: 0 <= i < 4 ==>
      Byte32(r, i) == Byte32(value, if littleEndianHost then i else 3 - i)
  {
    if littleEndianHost then value else U32SwapBytes(value)
  }

  /** Reading back a word stored in little-endian order gives the word itself, on either host. */
  lemma LeRoundTrip(x: bv32, littleEndianHost: bool)
    ensures U32FromLe(U32ToLe(x, littleEndianHost), littleEndianHost) == x
    ensures U32ToLe(U32FromLe(x, littleEndianHost), littleEndianHost) == x
  {
    if !littleEndianHost {
      U32SwapInvolution(x);
    }
  }
}
