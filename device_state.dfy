// The device and context records of the software GPU layer (`GibgoGPUDevice`,
// `GibgoContext`) as classes whose fields the operations update in place.
// One device class serves every variant: the allocation pool is used only by
// the `directDrm` allocator, the bare VRAM offset by the `gibgoGraphics` one.
module GpuDevices {
  import opened MachineWords
  import opened GpuCore
  import opened GibgoTypes
  import opened CommandRingModel

  /** Width and height of the framebuffer every variant renders into. */
  const FB_WIDTH: u32 := 800
  const FB_HEIGHT: u32 := 600
  const FB_PIXELS: nat := 480000

  /** Slots in the `directDrm` allocation table. */
  const MAX_ALLOCATIONS: nat := 256

  /** One entry of the allocation table; the CPU pointer is its address value. */
  datatype Allocation = Allocation(gpuAddress: u64, cpuPointer: u64, size: u64, inUse: bool)

  /** The table entry of a zeroed (`calloc`) device. */
  const EMPTY_SLOT: Allocation := Allocation(0, 0, 0, false)

  /** Number of in-use entries of an allocation table. */
  function CountInUse(slots: seq<Allocation>): (r: nat)
    ensures r <= |slots|
    decreases |slots|
  {
    if slots == [] then 0
    else CountInUse(slots[..|slots| - 1]) + (if slots[|slots| - 1].inUse then 1 else 0)
  }

  /**
   * The pool layout of an allocation table: every in-use slot owns the
   * nonempty pool range `[offsets[i], offsets[i] + size)` below `used`, its
   * GPU address and CPU pointer are the VRAM base and the pool base advanced
   * by that offset, and the ranges of different in-use slots do not overlap.
   */
  ghost predicate Layout(slots: seq<Allocation>, offsets: seq<nat>, vramBase: u64, poolMemory: u64, used: nat)
  {
    |offsets| == |slots| &&
    (forall i :: 0 <= i < |slots| && slots[i].inUse ==>
       0 < slots[i].size && offsets[i] + slots[i].size <= used &&
       slots[i].gpuAddress == Wrap64(vramBase + offsets[i]) &&
       slots[i].cpuPointer == Wrap64(poolMemory + offsets[i])) &&
    (forall i, j :: 0 <= i < |slots| && 0 <= j < |slots| && i != j && slots[i].inUse && slots[j].inUse ==>
       offsets[i] + slots[i].size <= offsets[j] || offsets[j] + slots[j].size <= offsets[i])
  }

  class GpuDevice {
    const info: GpuInfo
    /** The mapped register space, addressed in 32-bit words. */
    const registers: array<u32>
    const registerSpaceSize: u64
    const commandProcessorOffset: u32
    const memoryControllerOffset: u32
    const displayEngineOffset: u32
    const shaderCoreOffset: u32
    /** The 800 x 600 pixels the software renderer draws into. */
    const framebuffer: array<u32>
    const vramBase: u64
    const vramSize: u64
    const ring: CommandRing
    /** `fence_register != NULL`. */
    const hasFenceRegister: bool
    const poolMemory: u64
    const poolSize: u64
    const allocations: array<Allocation>
    var vramAllocationOffset: u64
    var fenceCounter: u32
    var commandsSubmitted: u64
    var framesRendered: u64
    var poolUsed: u64
    var allocationCount: u32
    /** The pool offset each slot was given, recorded for the layout invariant. */
    ghost var slotOffsets: seq<nat>

    /** Word index of the command-processor registers (`cmd_regs`). */
    function CommandWord(): nat
    {
      commandProcessorOffset as int / 4
    }

    /** Word index of `fence_register`. */
    function FenceWord(): nat
    {
      CommandWord() + 0x100
    }

    /**
     * The structure every operation relies on: the ring is well formed, the
     * four arrays are distinct, the command and fence registers and the
     * declared register space lie inside the register array, the framebuffer
     * holds 800 x 600 pixels and the allocation table has 256 slots.
     */
    predicate Valid()
      reads ring
    {
      ring.Valid() &&
      registers != framebuffer && ring.buffer != registers && ring.buffer != framebuffer &&
      registerSpaceSize <= 4 * registers.Length && FenceWord() < registers.Length &&
      framebuffer.Length == FB_PIXELS && allocations.Length == MAX_ALLOCATIONS
    }

    /**
     * The `directDrm` pool bookkeeping: the pool is filled from the start and
     * in step with the VRAM offset, `allocation_count` is the number of
     * in-use slots, and the in-use slots own disjoint pool ranges.
     */
    ghost predicate PoolValid()
      reads this, allocations
    {
      poolUsed <= poolSize && vramAllocationOffset == poolUsed &&
      allocationCount as int == CountInUse(allocations[..]) &&
      Layout(allocations[..], slotOffsets, vramBase, poolMemory, poolUsed)
    }

    /**
     * Records an allocation of the next `size` bytes of the pool in the free
     * slot `slot`: the slot gets the VRAM address and the pool pointer at the
     * current offset, and the pool, the VRAM offset and the count grow; the
     * pool bookkeeping stays valid.
     */
    method Claim(slot: nat, size: u64) returns (address: u64)
      requires Valid() && PoolValid()
      requires slot < allocations.Length && !allocations[slot].inUse
      requires 0 < size && poolUsed as nat + size as nat <= poolSize as nat
      requires allocationCount as nat < MAX_ALLOCATIONS
      modifies this`vramAllocationOffset, this`poolUsed, this`allocationCount, this`slotOffsets, allocations
      ensures Valid() && PoolValid()
      ensures address == Wrap64(vramBase + old(vramAllocationOffset))
      ensures allocations[..] == old(allocations[..])[slot := Allocation(address, Wrap64(poolMemory + old(poolUsed)), size, true)]
      ensures poolUsed == old(poolUsed) + size && vramAllocationOffset == poolUsed
      ensures allocationCount == old(allocationCount) + 1
    {
      ghost var before := allocations[..];
      ghost var offsets := slotOffsets;
      ghost var used := poolUsed as nat;
      address := Wrap64(vramBase + vramAllocationOffset);
      var record := Allocation(address, Wrap64(poolMemory + poolUsed), size, true);
      allocations[slot] := record;
      slotOffsets := slotOffsets[slot := poolUsed as nat];
      poolUsed := poolUsed + size;
      allocationCount := allocationCount + 1;
      vramAllocationOffset := vramAllocationOffset + size;
      assert allocations[..] == before[slot := record];
      CountAfterClaim(before, slot, record);
      LayoutAfterClaim(before, offsets, vramBase, poolMemory, used, slot, record);
    }

    /** The fence register's current value. */
    function FenceValue(): u32
      reads registers
      requires FenceWord() < registers.Length
    {
      registers[FenceWord()]
    }

    /**
     * A device with the given parts and configuration; the counters, the
     * VRAM offset and the pool bookkeeping start at zero and the allocation
     * table is empty, as `calloc` leaves them.
     */
    constructor (info: GpuInfo, registers: array<u32>, registerSpaceSize: u64,
                 offsets: (u32, u32, u32, u32), framebuffer: array<u32>,
                 vramBase: u64, vramSize: u64, ring: CommandRing, hasFenceRegister: bool,
                 poolMemory: u64, poolSize: u64)
      ensures this.info == info && this.registers == registers && this.framebuffer == framebuffer
      ensures this.registerSpaceSize == registerSpaceSize
      ensures (commandProcessorOffset, memoryControllerOffset, displayEngineOffset, shaderCoreOffset) == offsets
      ensures this.vramBase == vramBase && this.vramSize == vramSize && this.ring == ring
      ensures this.hasFenceRegister == hasFenceRegister
      ensures this.poolMemory == poolMemory && this.poolSize == poolSize
      ensures fresh(allocations) && allocations.Length == MAX_ALLOCATIONS
      ensures forall i :: 0 <= i < allocations.Length ==> allocations[i] == EMPTY_SLOT
      ensures vramAllocationOffset == 0 && fenceCounter == 0 && commandsSubmitted == 0 && framesRendered == 0
      ensures poolUsed == 0 && allocationCount == 0 && |slotOffsets| == MAX_ALLOCATIONS
    {
      this.info := info;
      this.registers := registers;
      this.registerSpaceSize := registerSpaceSize;
      commandProcessorOffset := offsets.0;
      memoryControllerOffset := offsets.1;
      displayEngineOffset := offsets.2;
      shaderCoreOffset := offsets.3;
      this.framebuffer := framebuffer;
      this.vramBase := vramBase;
      this.vramSize := vramSize;
      this.ring := ring;
      this.hasFenceRegister := hasFenceRegister;
      this.poolMemory := poolMemory;
      this.poolSize := poolSize;
      allocations := new Allocation[MAX_ALLOCATIONS](_ => EMPTY_SLOT);
      vramAllocationOffset := 0;
      fenceCounter := 0;
      commandsSubmitted := 0;
      framesRendered := 0;
      poolUsed := 0;
      allocationCount := 0;
      slotOffsets := seq(MAX_ALLOCATIONS, _ => 0);
    }
  }

  class Context {
    const device: GpuDevice
    var framebufferWidth: u32
    var framebufferHeight: u32
    var framebufferAddress: u64
    var framebufferFormat: u32
    var vertexShaderAddress: u64
    var fragmentShaderAddress: u64
    var vertexBufferAddress: u64
    var vertexBufferStride: u32
    var vertexCount: u32
    var frameFence: u32
    var currentFrameIndex: u32
    // Fields of the `directDrm` rotating-cube context.
    var uniformBufferAddress: u64
    var uniformBufferSize: u32
    var depthTestEnabled: bool
    var depthNear: F32
    var depthFar: F32

    /** A context of `device` with every other field zero, as `calloc` leaves it. */
    constructor (device: GpuDevice)
      ensures this.device == device
      ensures framebufferWidth == 0 && framebufferHeight == 0 && framebufferAddress == 0
      ensures framebufferFormat == 0 && vertexShaderAddress == 0 && fragmentShaderAddress == 0
      ensures vertexBufferAddress == 0 && vertexBufferStride == 0 && vertexCount == 0
      ensures frameFence == 0 && currentFrameIndex == 0
      ensures uniformBufferAddress == 0 && uniformBufferSize == 0 && !depthTestEnabled
      ensures depthNear == F32(0) && depthFar == F32(0)
    {
      this.device := device;
      framebufferWidth := 0;
      framebufferHeight := 0;
      framebufferAddress := 0;
      framebufferFormat := 0;
      vertexShaderAddress := 0;
      fragmentShaderAddress := 0;
      vertexBufferAddress := 0;
      vertexBufferStride := 0;
      vertexCount := 0;
      frameFence := 0;
      currentFrameIndex := 0;
      uniformBufferAddress := 0;
      uniformBufferSize := 0;
      depthTestEnabled := false;
      depthNear := F32(0);
      depthFar := F32(0);
    }
  }

  // ---------------------------------------------------------------------------
  // Facts about the allocation table
  // ---------------------------------------------------------------------------

  /** A table with fewer in-use entries than slots has a free slot. */
  lemma {:induction false} FreeSlotExists(slots: seq<Allocation>)
    requires CountInUse(slots) < |slots|
    ensures exists i :: 0 <= i < |slots| && !slots[i].inUse
    decreases |slots|
  {
    var n := |slots| - 1;
    if !slots[n].inUse {
    } else {
      FreeSlotExists(slots[..n]);
      var i :| 0 <= i < n && !slots[..n][i].inUse;
      assert !slots[i].inUse;
    }
  }

  /** Marking a free slot in use adds one to the count; nothing else moves it. */
  lemma {:induction false} CountAfterClaim(slots: seq<Allocation>, i: nat, a: Allocation)
    requires i < |slots| && !slots[i].inUse && a.inUse
    ensures CountInUse(slots[i := a]) == CountInUse(slots) + 1
    decreases |slots|
  {
    var n := |slots| - 1;
    var updated := slots[i := a];
    if i == n {
      assert updated[..n] == slots[..n];
    } else {
      assert updated[..n] == slots[..n][i := a];
      CountAfterClaim(slots[..n], i, a);
    }
  }

  /** A table with no slot in use has a layout, whatever the offsets. */
  lemma LayoutEmpty(slots: seq<Allocation>, offsets: seq<nat>, vramBase: u64, poolMemory: u64, used: nat)
    requires |offsets| == |slots|
    requires forall i :: 0 <= i < |slots| ==> !slots[i].inUse
    ensures Layout(slots, offsets, vramBase, poolMemory, used)
  {
  }

  /**
   * Filling a free slot with an in-use `record` whose addresses are at pool
   * offset `used` keeps the layout, with the pool grown by the record's size.
   */
  lemma LayoutAfterClaim(slots: seq<Allocation>, offsets: seq<nat>, vramBase: u64, poolMemory: u64,
                         used: nat, slot: nat, record: Allocation)
    requires Layout(slots, offsets, vramBase, poolMemory, used)
    requires slot < |slots| && !slots[slot].inUse
    requires record.inUse && 0 < record.size
    requires record.gpuAddress == Wrap64(vramBase + used) && record.cpuPointer == Wrap64(poolMemory + used)
    ensures Layout(slots[slot := record], offsets[slot := used], vramBase, poolMemory, used + record.size)
  {
    var slots' := slots[slot := record];
    var offsets' := offsets[slot := used];
    forall i, j | 0 <= i < |slots'| && 0 <= j < |slots'| && i != j && slots'[i].inUse && slots'[j].inUse
      ensures offsets'[i] + slots'[i].size <= offsets'[j] || offsets'[j] + slots'[j].size <= offsets'[i]
    {
      if i == slot {
        assert offsets'[j] + slots'[j].size <= used;
      } else if j == slot {
        assert offsets'[i] + slots'[i].size <= used;
      }
    }
  }

  /**
   * In a table with a layout inside a pool smaller than `2^64`, different
   * in-use slots have different GPU addresses and different CPU pointers.
   */
  lemma DistinctAddresses(slots: seq<Allocation>, offsets: seq<nat>, vramBase: u64, poolMemory: u64,
                          used: nat, i: nat, j: nat)
    requires Layout(slots, offsets, vramBase, poolMemory, used) && used < TWO_64
    requires i < |slots| && j < |slots| && i != j && slots[i].inUse && slots[j].inUse
    ensures slots[i].gpuAddress != slots[j].gpuAddress
    ensures slots[i].cpuPointer != slots[j].cpuPointer
  {
    assert offsets[i] != offsets[j];
    WrapInjective(vramBase, offsets[i], offsets[j]);
    WrapInjective(poolMemory, offsets[i], offsets[j]);
  }

  /** Adding two different offsets below `2^64` to one base gives different `u64` sums. */
  lemma WrapInjective(base: u64, a: nat, b: nat)
    requires a < TWO_64 && b < TWO_64 && a != b
    ensures Wrap64(base + a) != Wrap64(base + b)
  {
  }
}
