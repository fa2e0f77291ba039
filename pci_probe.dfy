// GPU discovery of `gibgo_enumerate_gpus`: vendor identification, the
// vendor/device split of PCI configuration dword 0, the class filter on
// dword 2, BAR0 decoding (section 6.2.5.1 of the PCI Local Bus Specification
// 3.0: bits 2:1 = 10b mark a 64-bit memory BAR, bits 3:0 are flags), the
// per-vendor defaults, and the loop over the PCI device directory. The sysfs
// reads are inputs: each configuration read either fails or yields a dword.
module PciProbe {
  import opened MachineWords
  import opened GpuCore

  const PCI_VENDOR_INTEL: u16 := 0x8086
  const PCI_VENDOR_AMD: u16 := 0x1002
  const PCI_VENDOR_NVIDIA: u16 := 0x10DE
  const PCI_CLASS_DISPLAY_VGA: u32 := 0x0300
  const PCI_CLASS_DISPLAY_3D: u32 := 0x0302
  const MAX_GPUS: nat := 16
  /** The register-space size every discovered GPU is given. */
  const DEFAULT_BAR0_SIZE: u64 := 0x100_0000

  // ---------------------------------------------------------------------------
  // Vendors
  // ---------------------------------------------------------------------------

  /** `get_gpu_vendor`. */
  function VendorOf(vendorId: u16): Vendor
  {
    if vendorId == PCI_VENDOR_INTEL then Intel
    else if vendorId == PCI_VENDOR_AMD then Amd
    else if vendorId == PCI_VENDOR_NVIDIA then Nvidia
    else UnknownVendor
  }

  /** The PCI vendor ID of a known vendor. */
  function PciVendorId(v: Vendor): u16
    requires v != UnknownVendor
  {
    match v
    case Intel => PCI_VENDOR_INTEL
    case Amd => PCI_VENDOR_AMD
    case Nvidia => PCI_VENDOR_NVIDIA
  }

  /**
   * Exactly the three listed IDs are known, each maps to its vendor and back,
   * and every other ID is unknown.
   */
  lemma VendorMapping(vendorId: u16, v: Vendor)
    ensures VendorOf(vendorId) != UnknownVendor <==>
      vendorId == PCI_VENDOR_INTEL || vendorId == PCI_VENDOR_AMD || vendorId == PCI_VENDOR_NVIDIA
    ensures VendorOf(vendorId) != UnknownVendor ==> PciVendorId(VendorOf(vendorId)) == vendorId
    ensures v != UnknownVendor ==> VendorOf(PciVendorId(v)) == v
  {
  }

  /** `(vram_size, max_compute_units, max_clock_frequency)` estimated for a vendor. */
  function VendorDefaults(v: Vendor): (u64, u32, u32)
  {
    match v
    case Intel => (512 * 1024 * 1024, 24, 1200)
    case Amd => (8 * 1024 * 1024 * 1024, 64, 2400)
    case Nvidia => (8 * 1024 * 1024 * 1024, 128, 1900)
    case UnknownVendor => (1024 * 1024 * 1024, 16, 1000)
  }

  // ---------------------------------------------------------------------------
  // Configuration-space fields
  // ---------------------------------------------------------------------------

  /** `(u16)(vendor_device & 0xFFFF)`. */
  function VendorIdField(dword0: u32): u16
  {
    dword0 % TWO_16
  }

  /** `(u16)((vendor_device >> 16) & 0xFFFF)`. */
  function DeviceIdField(dword0: u32): u16
  {
    dword0 / TWO_16 % TWO_16
  }

  /** `(class_code >> 16) & 0xFFFF`: class and subclass bytes of dword 2. */
  function ClassField(dword2: u32): u32
  {
    dword2 / TWO_16 % TWO_16
  }

  /** The two ID fields split dword 0 into halves that rebuild it. */
  lemma IdFieldsRebuild(dword0: u32)
    ensures DeviceIdField(dword0) * TWO_16 + VendorIdField(dword0) == dword0
  {
  }

  /** Only display controllers of the VGA and 3D subclasses pass the filter. */
  predicate IsDisplayClass(dword2: u32)
  {
    ClassField(dword2) == PCI_CLASS_DISPLAY_VGA || ClassField(dword2) == PCI_CLASS_DISPLAY_3D
  }

  /** `(bar0_low >> 1) & 0x3`: the memory-type field. */
  function BarType(low: u32): u32
  {
    low / 2 % 4
  }

  /** `bar0_low & ~0xF`: the address bits of the low dword. */
  function BarAddressBits(low: u32): u32
  {
    low / 16 * 16
  }

  /** BAR0's base address from its low dword and, for a 64-bit BAR, the high one. */
  function BarAddress(low: u32, high: u32): u64
  {
    if BarType(low) == 2 then JoinAddress(BarAddressBits(low), high) else BarAddressBits(low)
  }

  /**
   * The decoded base is 16-byte aligned and keeps every address bit of the
   * low dword; a 64-bit BAR contributes `high` as the upper half, and a 32-bit
   * one yields an address below 4 GiB whatever `high` is.
   */
  lemma BarAddressFields(low: u32, high: u32)
    ensures BarAddress(low, high) % 16 == 0
    ensures AddressLow(BarAddress(low, high)) == BarAddressBits(low)
    ensures BarAddressBits(low) == low - low % 16
    ensures BarType(low) == 2 ==> AddressHigh(BarAddress(low, high)) == high
    ensures BarType(low) != 2 ==> BarAddress(low, high) < TWO_32 && BarAddress(low, high) == BarAddress(low, 0)
  {
    var bits := BarAddressBits(low);
    var q := low as int / 16;
    assert bits as int == q * 16 && low as int == q * 16 + low as int % 16;
    if BarType(low) == 2 {
      ParameterRoundTrip(bits, high);
      assert BarAddress(low, high) as int == 16 * (high as int * 0x1000_0000 + q);
    } else {
      assert BarAddress(low, high) == bits as u64;
      assert AddressLow(bits as u64) == bits;
    }
  }

  /** Flag bits 0 and 3 do not affect the decoded address. */
  lemma BarFlagsIgnored(low: u32, high: u32, flags: u32)
    requires flags == 1 || flags == 8 || flags == 9
    requires low % 16 == 0
    ensures BarAddress(low + flags, high) == BarAddress(low, high)
  {
    var q := low as int / 16;
    assert low as int == 16 * q;
    assert (low as int + flags as int) / 16 == q;
    assert BarAddressBits(low + flags) == BarAddressBits(low);
    var k := 2 * q + flags as int / 8;
    assert (low as int + flags as int) / 2 == 4 * k;
    assert low as int / 2 == 4 * (2 * q);
    QuadrupleType(k);
    QuadrupleType(2 * q);
  }

  lemma QuadrupleType(k: int)
    ensures (4 * k) % 4 == 0
  {
  }

  // ---------------------------------------------------------------------------
  // One directory entry
  // ---------------------------------------------------------------------------

  /**
   * A `/sys/bus/pci/devices` entry: its name, and the outcome of each
   * configuration read the loop may perform (offsets 0x00, 0x08, 0x10, 0x14).
   */
  datatype PciEntry = PciEntry(
    name: string,
    dword0: Option<u32>,
    dword2: Option<u32>,
    bar0Low: Option<u32>,
    bar0High: Option<u32>)

  /** The GPU description recorded for an accepted entry. */
  function Describe(dword0: u32, low: u32, high: u32): GpuInfo
  {
    var vendor := VendorOf(VendorIdField(dword0));
    var defaults := VendorDefaults(vendor);
    GpuInfo(VendorIdField(dword0), DeviceIdField(dword0), vendor, defaults.0,
            BarAddress(low, high), DEFAULT_BAR0_SIZE, defaults.1, defaults.2)
  }

  /**
   * The loop body for one entry: hidden entries, failed reads, non-display
   * classes, unknown vendors and a failed read of a 64-bit BAR's high half
   * are skipped; anything else is recorded.
   */
  function Probe(e: PciEntry): Option<GpuInfo>
  {
    if |e.name| > 0 && e.name[0] == '.' then None
    else if e.dword0.None? || e.dword2.None? then None
    else if !IsDisplayClass(e.dword2.value) then None
    else if VendorOf(VendorIdField(e.dword0.value)) == UnknownVendor then None
    else if e.bar0Low.None? then None
    else if BarType(e.bar0Low.value) == 2 then
      if e.bar0High.None? then None else Some(Describe(e.dword0.value, e.bar0Low.value, e.bar0High.value))
    else Some(Describe(e.dword0.value, e.bar0Low.value, 0))
  }

  /**
   * An entry is recorded exactly when it is visible, its reads succeed, it is
   * a display controller of a known vendor and (for a 64-bit BAR) the high
   * dword is readable; the record carries the decoded IDs, the BAR address,
   * the 16 MiB register space and the vendor's defaults.
   */
  lemma ProbeAccepts(e: PciEntry)
    ensures Probe(e).Some? <==>
      !(|e.name| > 0 && e.name[0] == '.') && e.dword0.Some? && e.dword2.Some? &&
      IsDisplayClass(e.dword2.value) && VendorOf(VendorIdField(e.dword0.value)) != UnknownVendor &&
      e.bar0Low.Some? && (BarType(e.bar0Low.value) == 2 ==> e.bar0High.Some?)
    ensures Probe(e).Some? ==>
      var info := Probe(e).value;
      info.deviceId * TWO_16 + info.vendorId == e.dword0.value &&
      info.vendor == VendorOf(info.vendorId) && info.vendor != UnknownVendor &&
      info.bar0Size == DEFAULT_BAR0_SIZE && info.bar0Base % 16 == 0 &&
      (info.vramSize, info.maxComputeUnits, info.maxClockFrequency) == VendorDefaults(info.vendor)
  {
    if Probe(e).Some? {
      var low := e.bar0Low.value;
      IdFieldsRebuild(e.dword0.value);
      BarAddressFields(low, if BarType(low) == 2 then e.bar0High.value else 0);
    }
  }

  /** The GPUs of a list of entries, in directory order, without the 16-entry cap. */
  function Found(entries: seq<PciEntry>): seq<GpuInfo>
    decreases |entries|
  {
    if entries == [] then []
    else
      var n := |entries| - 1;
      Found(entries[..n]) + (if Probe(entries[n]).Some? then [Probe(entries[n]).value] else [])
  }

  /** The GPUs found in a prefix of the directory are a prefix of those found in all of it. */
  lemma {:induction false} FoundPrefix(entries: seq<PciEntry>, i: nat)
    requires i <= |entries|
    ensures Found(entries[..i]) <= Found(entries)
    decreases |entries|
  {
    if i < |entries| {
      var n := |entries| - 1;
      assert entries[..n][..i] == entries[..i];
      FoundPrefix(entries[..n], i);
    } else {
      assert entries[..i] == entries;
    }
  }

  /**
   * `gibgo_enumerate_gpus` over the directory `entries` (`dirOpened` is
   * whether `opendir` succeeded): at most 16 GPUs, the first ones found in
   * directory order, and `DEVICE_NOT_FOUND` when there are none.
   */
  method EnumerateGpus(entries: seq<PciEntry>, dirOpened: bool) returns (r: GpuResult, gpus: seq<GpuInfo>)
    ensures !dirOpened ==> r == DeviceNotFound && gpus == []
    ensures dirOpened ==>
      (r == Success <==> |Found(entries)| > 0) &&
      (r != Success ==> r == DeviceNotFound && gpus == []) &&
      (r == Success ==> gpus == Found(entries)[..if |Found(entries)| < MAX_GPUS then |Found(entries)| else MAX_GPUS])
  {
    if !dirOpened {
      return DeviceNotFound, [];
    }
    gpus := [];
    var i := 0;
    while i < |entries| && |gpus| < MAX_GPUS
      invariant 0 <= i <= |entries|
      invariant gpus == Found(entries[..i])
      invariant |gpus| <= MAX_GPUS
    {
      assert entries[..i + 1][..i] == entries[..i];
      var info := Probe(entries[i]);
      if info.Some? {
        gpus := gpus + [info.value];
      }
      i := i + 1;
    }
    FoundPrefix(entries, i);
    if i == |entries| {
      assert entries[..i] == entries;
    }
    if |gpus| == 0 {
      return DeviceNotFound, [];
    }
    return Success, gpus;
  }
}
