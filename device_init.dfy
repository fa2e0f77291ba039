// Device creation and register access of the `directDrm` rotating-cube
// variant: `gibgo_create_device` (after enumeration: the DRM framebuffer, the
// vendor register offsets, VRAM, the command ring and the fence),
// `clear_framebuffer_to_color`, and the bounds-checked register accessors.
// Allocating the device record and the ring's host buffer, opening
// `/dev/dri/cardN` and creating the dumb buffer are inputs (whether they
// succeed); the framebuffer they produce is taken to be exactly 800 x 600
// words.
module GpuDeviceInit {
  import opened MachineWords
  import opened GpuCore
  import opened CommandRingModel
  import opened GpuDevices
  import opened PciProbe

  /** Slots of the command ring `gibgo_create_device` sets up. */
  const RING_CAPACITY: u32 := 1024
  /** The dark grey the framebuffer is cleared to before the first frame. */
  const INITIAL_CLEAR_COLOR: u32 := 0xFF22_2222
  /** VRAM starts this far past BAR0, beyond the register space. */
  const VRAM_OFFSET: nat := 0x0100_0000
  /** Bytes of the 800 x 600 x 32-bit dumb buffer, used as the register-space size. */
  const FRAMEBUFFER_BYTES: nat := 4 * FB_PIXELS

  /**
   * `(command_processor, memory_controller, display_engine, shader_core)`
   * register offsets of a vendor.
   */
  function RegisterOffsets(v: Vendor): (u32, u32, u32, u32)
  {
    match v
    case Intel => (0x2000, 0x4000, 0x6000, 0x8000)
    case Amd => (0x8000, 0xC000, 0x6000, 0x2_0000)
    case Nvidia => (0x1_0000, 0x10_0000, 0x60_0000, 0x40_0000)
    case UnknownVendor => (0x1000, 0x2000, 0x3000, 0x4000)
  }

  /**
   * Every vendor's command-processor block is word aligned and its fence
   * register (word `0x100` of the block) lies inside the 800 x 600 buffer.
   */
  lemma FenceInsideFramebuffer(v: Vendor)
    ensures RegisterOffsets(v).0 % 4 == 0
    ensures RegisterOffsets(v).0 / 4 + 0x100 < FB_PIXELS
  {
  }

  // ---------------------------------------------------------------------------
  // The ring allocation as written
  // ---------------------------------------------------------------------------

  /**
   * Words of `command_buffer` as `gibgo_create_device` allocates it:
   * `buffer_size = capacity * sizeof(u32)` bytes, one word per slot.
   */
  function RingWordsAsWritten(capacity: u32): nat
  {
    capacity * 4 / 4
  }

  /**
   * With the allocation as written, the producer overruns the buffer on the
   * second full frame: 256 records from an empty ring fill words 0..1023, and
   * the 257th record goes to slot 256, whose first word is index 1024 of a
   * 1024-word buffer. No consumer moves `head`, so `head` stays 0 and the
   * ring does not report itself full.
   */
  lemma RingAllocationAsWrittenOverruns()
    ensures RingWordsAsWritten(RING_CAPACITY) == 1024
    ensures Produce(0, 0, RING_CAPACITY, 0, 256) == ProduceOutcome(false, 0, 256, 256)
    ensures !Produce(0, 256, RING_CAPACITY, 0, 1).timedOut
    ensures 4 * 256 >= RingWordsAsWritten(RING_CAPACITY)
  {
    AdvanceIsOffset(0, 256, RING_CAPACITY as nat);
    ProduceFits(0, 0, RING_CAPACITY as nat, 0, 256);
    ProduceFits(0, 256, RING_CAPACITY as nat, 0, 1);
    AdvanceIsOffset(256, 1, RING_CAPACITY as nat);
  }

  // ---------------------------------------------------------------------------
  // Operations
  // ---------------------------------------------------------------------------

  /**
   * `clear_framebuffer_to_color`: the first `width * height` words (a `u32`
   * product) become `color`, the rest of the buffer is untouched.
   */
  method ClearFramebufferToColor(framebuffer: array<u32>, width: u32, height: u32, color: u32)
    requires Wrap32(width * height) <= framebuffer.Length
    modifies framebuffer
    ensures forall i :: 0 <= i < Wrap32(width * height) ==> framebuffer[i] == color
    ensures forall i :: Wrap32(width * height) <= i < framebuffer.Length ==> framebuffer[i] == old(framebuffer[i])
  {
    var count := Wrap32(width * height);
    var i := 0;
    while i < count
      invariant 0 <= i <= count
      invariant forall j :: 0 <= j < i ==> framebuffer[j] == color
      invariant forall j :: count <= j < framebuffer.Length ==> framebuffer[j] == old(framebuffer[j])
    {
      framebuffer[i] := color;
      i := i + 1;
    }
  }

  /** The outcome of `gibgo_create_device` up to the point where it can fail. */
  function CreateResult(gpuIndex: u32, entries: seq<PciEntry>, dirOpened: bool, deviceMemory: bool,
                        drmOpened: bool, framebufferCreated: bool, ringMemory: bool): GpuResult
  {
    var found := Found(entries);
    var count := if |found| < MAX_GPUS then |found| else MAX_GPUS;
    if !dirOpened || count == 0 then DeviceNotFound
    else if gpuIndex >= count then InvalidParameter
    else if !deviceMemory then OutOfMemory
    else if !drmOpened then DeviceAccessDenied
    else if !framebufferCreated then MemoryMapFailed
    else if !ringMemory then OutOfMemory
    else Success
  }

  /**
   * `gibgo_create_device` finds no device exactly when the bus directory
   * did not open or holds no display controller; it succeeds exactly when
   * the index names one of the first 16 GPUs found and the host memory,
   * the DRM device and the framebuffer were all granted; and it runs out of
   * memory exactly when the GPU was chosen and the device record, or (after
   * everything else succeeded) the ring, was refused.
   */
  lemma CreateOutcomes(gpuIndex: u32, entries: seq<PciEntry>, dirOpened: bool, deviceMemory: bool,
                       drmOpened: bool, framebufferCreated: bool, ringMemory: bool)
    ensures var r := CreateResult(gpuIndex, entries, dirOpened, deviceMemory, drmOpened, framebufferCreated, ringMemory);
      (r == DeviceNotFound <==> !dirOpened || Found(entries) == []) &&
      (r == Success <==>
         dirOpened && gpuIndex as nat < |Found(entries)| && gpuIndex as nat < MAX_GPUS &&
         deviceMemory && drmOpened && framebufferCreated && ringMemory) &&
      (r == OutOfMemory <==>
         dirOpened && gpuIndex as nat < |Found(entries)| && gpuIndex as nat < MAX_GPUS &&
         (!deviceMemory || (drmOpened && framebufferCreated && !ringMemory)))
  {
  }

  /**
   * The state `gibgo_create_device` leaves a device in for the GPU `info`:
   * the framebuffer cleared, the vendor's register offsets, VRAM 16 MiB past
   * BAR0 with nothing allocated, an empty 1024-slot ring, the fence register
   * set up, `fence_counter` 1 and every counter and pool field zero.
   */
  ghost predicate Created(device: GpuDevice, info: GpuInfo)
    reads device, device.ring, device.framebuffer, device.allocations
  {
    device.Valid() && device.PoolValid() && device.info == info &&
    device.registerSpaceSize == FRAMEBUFFER_BYTES &&
    (forall i :: 0 <= i < device.framebuffer.Length ==> device.framebuffer[i] == INITIAL_CLEAR_COLOR) &&
    (device.commandProcessorOffset, device.memoryControllerOffset,
     device.displayEngineOffset, device.shaderCoreOffset) == RegisterOffsets(info.vendor) &&
    device.vramBase == Wrap64(info.bar0Base + VRAM_OFFSET) &&
    device.vramSize == info.vramSize && device.vramAllocationOffset == 0 &&
    device.ring.capacity == RING_CAPACITY && device.ring.head == 0 && device.ring.tail == 0 &&
    device.hasFenceRegister && device.fenceCounter == 1 &&
    device.commandsSubmitted == 0 && device.framesRendered == 0 &&
    device.poolSize == 0 && device.poolUsed == 0 && device.allocationCount == 0
  }

  /** The part of `gibgo_create_device` after the DRM framebuffer exists. */
  method NewDevice(info: GpuInfo) returns (device: GpuDevice)
    ensures fresh(device) && fresh(device.registers) && fresh(device.framebuffer)
    ensures fresh(device.ring) && fresh(device.ring.buffer) && fresh(device.allocations)
    ensures Created(device, info)
  {
    var framebuffer := new u32[FB_PIXELS];
    ClearFramebufferToColor(framebuffer, FB_WIDTH, FB_HEIGHT, INITIAL_CLEAR_COLOR);
    var registers := new u32[FB_PIXELS];
    var ring := new CommandRing(RING_CAPACITY);
    device := new GpuDevice(info, registers, FRAMEBUFFER_BYTES, RegisterOffsets(info.vendor), framebuffer,
                            Wrap64(info.bar0Base + VRAM_OFFSET), info.vramSize, ring, true, 0, 0);
    device.fenceCounter := 1;
    FenceInsideFramebuffer(info.vendor);
    CountEmpty(device.allocations[..]);
    LayoutEmpty(device.allocations[..], device.slotOffsets, device.vramBase, device.poolMemory, 0);
  }

  /**
   * `gibgo_create_device(gpu_index)` (`deviceMemory` and `ringMemory` are
   * whether the `calloc` of the device and the `malloc` of the ring buffer
   * succeed): enumeration errors are passed on, an index past the GPUs found
   * is `INVALID_PARAMETER`, no memory for the device is `OUT_OF_MEMORY`, a
   * DRM device that cannot be opened is `DEVICE_ACCESS_DENIED`, a
   * framebuffer that cannot be created is `MEMORY_MAP_FAILED` and no memory
   * for the ring is `OUT_OF_MEMORY`; on success the device is the chosen
   * GPU's, in its initial state.
   */
  method CreateDevice(gpuIndex: u32, entries: seq<PciEntry>, dirOpened: bool, deviceMemory: bool,
                      drmOpened: bool, framebufferCreated: bool, ringMemory: bool)
    returns (r: GpuResult, device: GpuDevice?)
    ensures r == CreateResult(gpuIndex, entries, dirOpened, deviceMemory, drmOpened, framebufferCreated, ringMemory)
    ensures r != Success <==> device == null
    ensures device != null ==>
      gpuIndex < |Found(entries)| && fresh(device) && fresh(device.registers) &&
      fresh(device.framebuffer) && fresh(device.ring) && fresh(device.ring.buffer) &&
      fresh(device.allocations) && Created(device, Found(entries)[gpuIndex])
  {
    var gpus;
    r, gpus := EnumerateGpus(entries, dirOpened);
    if r != Success {
      return r, null;
    }
    if gpuIndex >= |gpus| {
      return InvalidParameter, null;
    }
    if !deviceMemory {
      return OutOfMemory, null;
    }
    if !drmOpened {
      return DeviceAccessDenied, null;
    }
    if !framebufferCreated {
      return MemoryMapFailed, null;
    }
    if !ringMemory {
      return OutOfMemory, null;
    }
    device := NewDevice(gpus[gpuIndex]);
    return Success, device;
  }

  /** A table of free slots counts no allocations. */
  lemma {:induction false} CountEmpty(slots: seq<Allocation>)
    requires forall i :: 0 <= i < |slots| ==> slots[i] == EMPTY_SLOT
    ensures CountInUse(slots) == 0
    decreases |slots|
  {
    if slots != [] {
      CountEmpty(slots[..|slots| - 1]);
    }
  }

  /**
   * `gibgo_write_gpu_register(offset, value)`: an offset at or past the
   * register space is `INVALID_PARAMETER` and writes nothing; otherwise
   * exactly word `offset / 4` becomes `value`.
   */
  method WriteRegister(device: GpuDevice, offset: u32, value: u32) returns (r: GpuResult)
    requires device.Valid()
    modifies device.registers
    ensures r == (if offset >= device.registerSpaceSize then InvalidParameter else Success)
    ensures r == Success ==> device.registers[..] == old(device.registers[..])[offset / 4 := value]
    ensures r != Success ==> device.registers[..] == old(device.registers[..])
  {
    if offset >= device.registerSpaceSize {
      return InvalidParameter;
    }
    device.registers[offset / 4] := value;
    return Success;
  }

  /**
   * `gibgo_read_gpu_register(offset)`: the same bounds check, then the
   * value of word `offset / 4`; nothing changes.
   */
  method ReadRegister(device: GpuDevice, offset: u32) returns (r: GpuResult, value: u32)
    requires device.Valid()
    ensures r == (if offset >= device.registerSpaceSize then InvalidParameter else Success)
    ensures r == Success ==> value == device.registers[offset / 4]
  {
    if offset >= device.registerSpaceSize {
      return InvalidParameter, 0;
    }
    return Success, device.registers[offset / 4];
  }

  /**
   * A register written inside the register space reads back the value
   * written, and every other register keeps its value; outside it both
   * calls fail with `INVALID_PARAMETER` and nothing changes.
   */
  method RegisterRoundTrip(device: GpuDevice, offset: u32, value: u32) returns (r: GpuResult, readBack: u32)
    requires device.Valid()
    modifies device.registers
    ensures r == (if offset >= device.registerSpaceSize then InvalidParameter else Success)
    ensures r == Success ==> readBack == value
    ensures r == Success ==>
      forall w :: 0 <= w < device.registers.Length && w != offset as int / 4 ==>
        device.registers[w] == old(device.registers[w])
    ensures r != Success ==> device.registers[..] == old(device.registers[..])
  {
    r := WriteRegister(device, offset, value);
    var readResult;
    readResult, readBack := ReadRegister(device, offset);
    assert readResult == r;
    if r == Success {
      forall w | 0 <= w < device.registers.Length && w != offset as int / 4
        ensures device.registers[w] == old(device.registers[w])
      {
        assert device.registers[w] == device.registers[..][w];
      }
    }
  }
}
