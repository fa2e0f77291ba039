// The shared vocabulary of the software GPU layer: result codes, vendors, the
// four-word command record, the split of 64-bit GPU addresses into two command
// parameters, and the GPU description produced by PCI enumeration.
module GpuCore {
  import opened MachineWords

  /** `GibgoResult`, in declaration order (SUCCESS = 0). */
  datatype GpuResult =
    | Success
    | DeviceNotFound
    | DeviceAccessDenied
    | MemoryMapFailed
    | OutOfMemory
    | InvalidParameter
    | GpuTimeout
    | CommandFailed
    | DisplayFailed

  /** `GibgoGPUVendor`. */
  datatype Vendor = UnknownVendor | Intel | Amd | Nvidia

  /**
   * `GibgoGPUCommand`: a command type and three 32-bit parameters, stored in
   * the command ring as four consecutive words.
   */
  datatype Command = Command(kind: u32, param0: u32, param1: u32, param2: u32)

  /** Number of polls of a busy-wait before it reports `GPU_TIMEOUT` (one second of 1 us sleeps). */
  const POLL_LIMIT: u32 := 1000000

  // ---------------------------------------------------------------------------
  // 64-bit GPU addresses as two command parameters
  // ---------------------------------------------------------------------------

  /** `(u32)(address & 0xFFFFFFFF)`. */
  function AddressLow(address: u64): (r: u32)
    ensures r < TWO_32 && (address - r) % TWO_32 == 0
  {
    address % TWO_32
  }

  /** `(u32)(address >> 32)`. */
  function AddressHigh(address: u64): (r: u32)
    ensures r * TWO_32 <= address < (r + 1) * TWO_32
  {
    address / TWO_32
  }

  /** `((u64)high << 32) | low`; the two halves occupy disjoint bits. */
  function JoinAddress(low: u32, high: u32): (r: u64)
    ensures r % TWO_32 == low && r / TWO_32 == high
  {
    high * TWO_32 + low
  }

  /** Splitting an address into the two parameters and joining them back gives the address. */
  lemma AddressRoundTrip(address: u64)
    ensures JoinAddress(AddressLow(address), AddressHigh(address)) == address
  {
  }

  /** Joining two parameters and splitting the result gives the parameters back. */
  lemma ParameterRoundTrip(low: u32, high: u32)
    ensures AddressLow(JoinAddress(low, high)) == low
    ensures AddressHigh(JoinAddress(low, high)) == high
  {
  }

  // ---------------------------------------------------------------------------
  // GPU description
  // ---------------------------------------------------------------------------

  /** `GibgoGPUInfo` (the formatted `device_name` is not modelled). */
  datatype GpuInfo = GpuInfo(
    vendorId: u16,
    deviceId: u16,
    vendor: Vendor,
    vramSize: u64,
    bar0Base: u64,
    bar0Size: u64,
    maxComputeUnits: u32,
    maxClockFrequency: u32)
}
