// Fixed-width unsigned machine words of the C sources (u8, u16, u32, u64),
// written as integer subset types so that every wrap-around is explicit,
// plus the Option type used for nullable pointers and optional outputs.
module MachineWords {
  const TWO_8: int := 0x100
  const TWO_16: int := 0x1_0000
  const TWO_32: int := 0x1_0000_0000
  const TWO_64: int := 0x1_0000_0000_0000_0000

  type u8 = x: int | 0 <= x < TWO_8
  type u16 = x: int | 0 <= x < TWO_16
  type u32 = x: int | 0 <= x < TWO_32
  type u64 = x: int | 0 <= x < TWO_64

  /** Result of a C `u32` operation whose exact value is `x`. */
  function Wrap32(x: int): (r: u32)
    ensures 0 <= x < TWO_32 ==> r == x
  {
    x % TWO_32
  }

  /** Result of a C `u64` operation whose exact value is `x`. */
  function Wrap64(x: int): (r: u64)
    ensures 0 <= x < TWO_64 ==> r == x
  {
    x % TWO_64
  }

  datatype Option<T> = None | Some(value: T)
}
