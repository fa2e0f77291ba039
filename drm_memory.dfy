// The `directDrm` GPU memory manager: a bump allocator over a host memory pool
// that mirrors a VRAM address range, with a 256-slot table recording each
// allocation (`gibgo_allocate_gpu_memory`), lookups in that table by GPU
// address and by CPU pointer (`gibgo_map_gpu_memory`,
// `gibgo_unmap_gpu_memory`), the no-op `gibgo_free_gpu_memory`, and context
// creation and vertex upload on top. Host pointers are their address values
// (`NULL` is 0); the bytes copied by `memcpy` are not modelled.
module DrmMemory {
  import opened MachineWords
  import opened GpuCore
  import opened GpuAlignment
  import opened GpuDevices

  /** Bytes of the 800 x 600 RGBA8 framebuffer a context allocates. */
  const FRAMEBUFFER_SIZE: u64 := 800 * 600 * 4
  /** `framebuffer_format` of a new context (RGBA8). */
  const FORMAT_RGBA8: u32 := 0x8888

  // ---------------------------------------------------------------------------
  // Specification of the allocator
  // ---------------------------------------------------------------------------

  /**
   * The result of `gibgo_allocate_gpu_memory(size)` on a pool with `used` of
   * `poolSize` bytes taken and `count` slots in use (sizes are aligned on
   * exact integers; the `u64` wrap-around of the C code is a documented
   * finding).
   */
  function AllocateResult(size: u64, used: u64, poolSize: u64, count: u32): GpuResult
  {
    if size == 0 then InvalidParameter
    else if Exhausted(used, AlignUp(size), poolSize) then OutOfMemory
    else if count as nat >= MAX_ALLOCATIONS then OutOfMemory
    else Success
  }

  /**
   * The slot search from index `k` on: the first slot not in use, or 0 when
   * every slot from `k` on is taken.
   */
  function FirstFreeFrom(slots: seq<Allocation>, k: nat): (r: nat)
    ensures (exists j :: k <= j < |slots| && !slots[j].inUse) ==>
      k <= r < |slots| && !slots[r].inUse && forall j :: k <= j < r ==> slots[j].inUse
    ensures (forall j :: k <= j < |slots| ==> slots[j].inUse) ==> r == 0
    ensures 0 < |slots| ==> r < |slots|
    decreases |slots| - k
  {
    if k >= |slots| then 0
    else if !slots[k].inUse then k
    else FirstFreeFrom(slots, k + 1)
  }

  /** The slot `gibgo_allocate_gpu_memory` records an allocation in. */
  function FirstFree(slots: seq<Allocation>): nat
  {
    FirstFreeFrom(slots, 0)
  }

  /** The first in-use slot from `k` on whose GPU address is `address`. */
  function FindGpuFrom(slots: seq<Allocation>, address: u64, k: nat): (r: Option<nat>)
    ensures r.Some? ==>
      k <= r.value < |slots| && slots[r.value].inUse && slots[r.value].gpuAddress == address &&
      forall j :: k <= j < r.value ==> !(slots[j].inUse && slots[j].gpuAddress == address)
    ensures r.None? <==> forall j :: k <= j < |slots| ==> !(slots[j].inUse && slots[j].gpuAddress == address)
    decreases |slots| - k
  {
    if k >= |slots| then None
    else if slots[k].inUse && slots[k].gpuAddress == address then Some(k)
    else FindGpuFrom(slots, address, k + 1)
  }

  /** The first in-use slot from `k` on whose CPU pointer is `pointer`. */
  function FindCpuFrom(slots: seq<Allocation>, pointer: u64, k: nat): (r: Option<nat>)
    ensures r.Some? ==>
      k <= r.value < |slots| && slots[r.value].inUse && slots[r.value].cpuPointer == pointer
    ensures r.None? <==> forall j :: k <= j < |slots| ==> !(slots[j].inUse && slots[j].cpuPointer == pointer)
    decreases |slots| - k
  {
    if k >= |slots| then None
    else if slots[k].inUse && slots[k].cpuPointer == pointer then Some(k)
    else FindCpuFrom(slots, pointer, k + 1)
  }

  /** The result of `gibgo_map_gpu_memory(address, size)` on a table. */
  function MapResult(slots: seq<Allocation>, address: u64, size: u64): GpuResult
  {
    var found := FindGpuFrom(slots, address, 0);
    if size == 0 || found.None? || size > slots[found.value].size then InvalidParameter else Success
  }

  /**
   * In a table with a layout, the lookup by GPU address finds the one
   * in-use slot holding that address.
   */
  lemma MapFindsOwner(slots: seq<Allocation>, offsets: seq<nat>, vramBase: u64, poolMemory: u64,
                      used: nat, i: nat)
    requires Layout(slots, offsets, vramBase, poolMemory, used) && used < TWO_64
    requires i < |slots| && slots[i].inUse
    ensures FindGpuFrom(slots, slots[i].gpuAddress, 0) == Some(i)
  {
    var found := FindGpuFrom(slots, slots[i].gpuAddress, 0);
    if found.value != i {
      DistinctAddresses(slots, offsets, vramBase, poolMemory, used, i, found.value);
    }
  }

  /** Likewise the lookup by CPU pointer finds the one in-use slot owning that pointer. */
  lemma UnmapFindsOwner(slots: seq<Allocation>, offsets: seq<nat>, vramBase: u64, poolMemory: u64,
                        used: nat, i: nat)
    requires Layout(slots, offsets, vramBase, poolMemory, used) && used < TWO_64
    requires i < |slots| && slots[i].inUse
    ensures FindCpuFrom(slots, slots[i].cpuPointer, 0) == Some(i)
  {
    var found := FindCpuFrom(slots, slots[i].cpuPointer, 0);
    if found.value != i {
      DistinctAddresses(slots, offsets, vramBase, poolMemory, used, i, found.value);
    }
  }

  /**
   * The device after a successful `gibgo_allocate_gpu_memory(size)` that
   * returned `address`: the address is the VRAM base plus the old offset, the
   * pool and the offset grow by the aligned size, one more slot is in use,
   * and the first free slot now records the allocation.
   */
  twostate predicate AllocatedFrom(device: GpuDevice, size: u64, address: u64)
    reads device, device.allocations
  {
    address == Wrap64(device.vramBase + old(device.vramAllocationOffset)) &&
    device.poolUsed == old(device.poolUsed) + AlignUp(size) &&
    device.vramAllocationOffset == device.poolUsed &&
    device.allocationCount == old(device.allocationCount) + 1 &&
    FirstFree(old(device.allocations[..])) < device.allocations.Length &&
    device.allocations[..] == old(device.allocations[..])[FirstFree(old(device.allocations[..])) :=
      Allocation(address, Wrap64(device.poolMemory + old(device.poolUsed)), AlignUp(size), true)] &&
    device.fenceCounter == old(device.fenceCounter) &&
    device.commandsSubmitted == old(device.commandsSubmitted) &&
    device.framesRendered == old(device.framesRendered)
  }

  // ---------------------------------------------------------------------------
  // Operations
  // ---------------------------------------------------------------------------

  /** The slot-search loop of `gibgo_allocate_gpu_memory`. */
  method FindFreeSlot(device: GpuDevice) returns (slot: nat)
    requires device.Valid()
    ensures slot == FirstFree(device.allocations[..])
  {
    slot := 0;
    var i := 0;
    while i < MAX_ALLOCATIONS
      invariant 0 <= i <= MAX_ALLOCATIONS
      invariant slot == 0
      invariant FirstFree(device.allocations[..]) == FirstFreeFrom(device.allocations[..], i)
    {
      if !device.allocations[i].inUse {
        slot := i;
        break;
      }
      i := i + 1;
    }
  }

  /**
   * `gibgo_allocate_gpu_memory(size)`: `INVALID_PARAMETER` for size 0,
   * `OUT_OF_MEMORY` when the aligned size does not fit in the pool or all
   * 256 slots are in use, and nothing changes on failure; on success the
   * allocation is recorded and the pool invariants are kept.
   */
  method Allocate(device: GpuDevice, size: u64) returns (r: GpuResult, address: u64)
    requires device.Valid() && device.PoolValid()
    modifies device, device.allocations
    ensures device.Valid() && device.PoolValid()
    ensures r == AllocateResult(size, old(device.poolUsed), device.poolSize, old(device.allocationCount))
    ensures r != Success ==> address == 0 && unchanged(device) && unchanged(device.allocations)
    ensures r == Success ==> AllocatedFrom(device, size, address)
  {
    if size == 0 {
      return InvalidParameter, 0;
    }
    var aligned := AlignUp(size);
    if device.poolUsed as nat + aligned > device.poolSize as nat {
      return OutOfMemory, 0;
    }
    if device.allocationCount >= MAX_ALLOCATIONS as u32 {
      return OutOfMemory, 0;
    }
    FreeSlotExists(device.allocations[..]);
    var slot := FindFreeSlot(device);
    address := device.Claim(slot, aligned);
    r := Success;
  }

  /** `gibgo_free_gpu_memory`: only logs; always `SUCCESS`, and the table keeps the allocation. */
  method Free(device: GpuDevice, address: u64, size: u64) returns (r: GpuResult)
    ensures r == Success
  {
    return Success;
  }

  /**
   * `gibgo_map_gpu_memory(address, size)`: the first in-use slot with this
   * GPU address; `INVALID_PARAMETER` for size 0, for an unknown address, or
   * for a size beyond the allocation; otherwise that slot's CPU pointer.
   */
  method Map(device: GpuDevice, address: u64, size: u64) returns (r: GpuResult, pointer: u64)
    requires device.Valid()
    ensures r == MapResult(device.allocations[..], address, size)
    ensures r == Success ==>
      pointer == device.allocations[FindGpuFrom(device.allocations[..], address, 0).value].cpuPointer
  {
    if size == 0 {
      return InvalidParameter, 0;
    }
    var i := 0;
    while i < MAX_ALLOCATIONS
      invariant 0 <= i <= MAX_ALLOCATIONS
      invariant FindGpuFrom(device.allocations[..], address, 0) == FindGpuFrom(device.allocations[..], address, i)
    {
      var slot := device.allocations[i];
      if slot.inUse && slot.gpuAddress == address {
        if size > slot.size {
          return InvalidParameter, 0;
        }
        return Success, slot.cpuPointer;
      }
      i := i + 1;
    }
    return InvalidParameter, 0;
  }

  /**
   * `gibgo_unmap_gpu_memory(pointer)`: `SUCCESS` exactly when the pointer is
   * non-null and some in-use slot owns it; nothing changes either way.
   */
  method Unmap(device: GpuDevice, pointer: u64, size: u64) returns (r: GpuResult)
    requires device.Valid()
    ensures r == (if pointer == 0 || FindCpuFrom(device.allocations[..], pointer, 0).None? then InvalidParameter else Success)
  {
    if pointer == 0 {
      return InvalidParameter;
    }
    var i := 0;
    while i < MAX_ALLOCATIONS
      invariant 0 <= i <= MAX_ALLOCATIONS
      invariant FindCpuFrom(device.allocations[..], pointer, 0).None? == FindCpuFrom(device.allocations[..], pointer, i).None?
    {
      var slot := device.allocations[i];
      if slot.inUse && slot.cpuPointer == pointer {
        return Success;
      }
      i := i + 1;
    }
    return InvalidParameter;
  }

  /**
   * An allocation just made can be mapped at its address for any size up to
   * its aligned size, and yields the pool pointer it was given; its pointer
   * can be unmapped.
   */
  lemma MapAfterAllocate(device: GpuDevice, slot: nat, size: u64)
    requires device.Valid() && device.PoolValid()
    requires slot < device.allocations.Length && device.allocations[slot].inUse
    requires 0 < size <= device.allocations[slot].size
    ensures MapResult(device.allocations[..], device.allocations[slot].gpuAddress, size) == Success
    ensures FindGpuFrom(device.allocations[..], device.allocations[slot].gpuAddress, 0) == Some(slot)
    ensures FindCpuFrom(device.allocations[..], device.allocations[slot].cpuPointer, 0) == Some(slot)
  {
    MapFindsOwner(device.allocations[..], device.slotOffsets, device.vramBase, device.poolMemory,
                  device.poolUsed as nat, slot);
    UnmapFindsOwner(device.allocations[..], device.slotOffsets, device.vramBase, device.poolMemory,
                    device.poolUsed as nat, slot);
  }

  /**
   * `gibgo_create_context(device)` (`hostMemory` is whether `calloc` of the
   * context succeeds): without host memory `OUT_OF_MEMORY` and nothing
   * changes; otherwise a context of an 800 x 600 RGBA8 framebuffer, fence 1
   * and frame 0, whose framebuffer memory is a fresh allocation of
   * 800 * 600 * 4 bytes; when that allocation fails its result is returned
   * and no context exists.
   */
  method CreateContext(device: GpuDevice, hostMemory: bool) returns (r: GpuResult, context: Context?)
    requires device.Valid() && device.PoolValid()
    modifies device, device.allocations
    ensures device.Valid() && device.PoolValid()
    ensures r == if !hostMemory then OutOfMemory else AllocateResult(FRAMEBUFFER_SIZE, old(device.poolUsed), device.poolSize, old(device.allocationCount))
    ensures r != Success ==> context == null && unchanged(device) && unchanged(device.allocations)
    ensures r == Success ==>
      context != null && fresh(context) && context.device == device &&
      AllocatedFrom(device, FRAMEBUFFER_SIZE, context.framebufferAddress) &&
      context.framebufferWidth == FB_WIDTH && context.framebufferHeight == FB_HEIGHT &&
      context.framebufferFormat == FORMAT_RGBA8 && context.frameFence == 1 && context.currentFrameIndex == 0 &&
      context.vertexBufferAddress == 0 && context.vertexCount == 0 && context.uniformBufferAddress == 0
  {
    if !hostMemory {
      return OutOfMemory, null;
    }
    var address;
    r, address := Allocate(device, FB_WIDTH as u64 * FB_HEIGHT as u64 * 4);
    if r != Success {
      return r, null;
    }
    context := NewContext(device, address);
  }

  /**
   * The context `gibgo_create_context` fills in once its framebuffer has
   * memory at `address`: 800 x 600 RGBA8, fence 1, frame 0, all else zero.
   */
  method NewContext(device: GpuDevice, address: u64) returns (context: Context)
    ensures fresh(context) && context.device == device && context.framebufferAddress == address
    ensures context.framebufferWidth == FB_WIDTH && context.framebufferHeight == FB_HEIGHT
    ensures context.framebufferFormat == FORMAT_RGBA8 && context.frameFence == 1 && context.currentFrameIndex == 0
    ensures context.vertexBufferAddress == 0 && context.vertexCount == 0 && context.uniformBufferAddress == 0
  {
    context := new Context(device);
    context.currentFrameIndex := 0;
    context.frameFence := 1;
    context.framebufferWidth := FB_WIDTH;
    context.framebufferHeight := FB_HEIGHT;
    context.framebufferFormat := FORMAT_RGBA8;
    context.framebufferAddress := address;
  }

  /**
   * `gibgo_destroy_context`: frees the framebuffer and vertex buffer, which
   * changes nothing in the pool, and reports `SUCCESS`.
   */
  method DestroyContext(context: Context) returns (r: GpuResult)
    ensures r == Success
  {
    if context.framebufferAddress != 0 {
      var _ := Free(context.device, context.framebufferAddress,
                    Wrap64(context.framebufferWidth as int * context.framebufferHeight as int * 4));
    }
    if context.vertexBufferAddress != 0 {
      var _ := Free(context.device, context.vertexBufferAddress, 1024 * 1024);
    }
    return Success;
  }

  /**
   * `gibgo_upload_vertices(data, count, stride)` (`hasData` is
   * `vertex_data != NULL`): rejects missing data or a zero count or stride;
   * allocates `count * stride` bytes (a `u32` product) only when the context
   * has no vertex buffer yet; then maps the buffer for that size, passing on
   * any failure, and records the stride and count.
   */
  method UploadVertices(context: Context, hasData: bool, count: u32, stride: u32) returns (r: GpuResult)
    requires context.device.Valid() && context.device.PoolValid()
    modifies context`vertexBufferAddress, context`vertexBufferStride, context`vertexCount
    modifies context.device, context.device.allocations
    ensures context.device.Valid() && context.device.PoolValid()
    ensures !hasData || count == 0 || stride == 0 ==>
      r == InvalidParameter && unchanged(context) && unchanged(context.device) && unchanged(context.device.allocations)
    ensures hasData && count != 0 && stride != 0 && old(context.vertexBufferAddress) != 0 ==>
      unchanged(context.device) && unchanged(context.device.allocations) &&
      r == MapResult(context.device.allocations[..], context.vertexBufferAddress, Wrap32(count as int * stride as int)) &&
      context.vertexBufferAddress == old(context.vertexBufferAddress)
    ensures hasData && count != 0 && stride != 0 && old(context.vertexBufferAddress) == 0 ==>
      var outcome := AllocateResult(Wrap32(count as int * stride as int), old(context.device.poolUsed),
                                    context.device.poolSize, old(context.device.allocationCount));
      (outcome != Success ==> r == outcome && unchanged(context) && unchanged(context.device) &&
                              unchanged(context.device.allocations)) &&
      (outcome == Success ==>
         r == Success && AllocatedFrom(context.device, Wrap32(count as int * stride as int), context.vertexBufferAddress))
    ensures r == Success ==> context.vertexBufferStride == stride && context.vertexCount == count
    ensures r != Success ==> context.vertexBufferStride == old(context.vertexBufferStride) &&
                             context.vertexCount == old(context.vertexCount)
  {
    if !hasData || count == 0 || stride == 0 {
      return InvalidParameter;
    }
    var device := context.device;
    var size: u64 := Wrap32(count as int * stride as int);
    r := EnsureVertexBuffer(context, size);
    if r != Success {
      return r;
    }
    r := CopyThroughMapping(device, context.vertexBufferAddress, size);
    if r != Success {
      return r;
    }
    SetVertexLayout(context, stride, count);
  }

  /**
   * The copy step of `gibgo_upload_vertices`: map the buffer for `size`
   * bytes, passing on a failure, then unmap the pointer with the result
   * ignored.
   */
  method CopyThroughMapping(device: GpuDevice, address: u64, size: u64) returns (r: GpuResult)
    requires device.Valid()
    ensures r == MapResult(device.allocations[..], address, size)
  {
    var pointer;
    r, pointer := Map(device, address, size);
    if r != Success {
      return r;
    }
    var _ := Unmap(device, pointer, size);
  }

  /** Records the layout of the uploaded vertices in the context. */
  method SetVertexLayout(context: Context, stride: u32, count: u32)
    modifies context`vertexBufferStride, context`vertexCount
    ensures context.vertexBufferStride == stride && context.vertexCount == count
  {
    context.vertexBufferStride := stride;
    context.vertexCount := count;
  }

  /**
   * The allocate-once step of `gibgo_upload_vertices`: a context without a
   * vertex buffer allocates `size` bytes for it, passing on a failure; an
   * existing buffer is kept. A buffer just allocated maps for `size`.
   */
  method EnsureVertexBuffer(context: Context, size: u64) returns (r: GpuResult)
    requires context.device.Valid() && context.device.PoolValid()
    modifies context`vertexBufferAddress, context.device, context.device.allocations
    ensures context.device.Valid() && context.device.PoolValid()
    ensures old(context.vertexBufferAddress) != 0 ==>
      r == Success && unchanged(context) && unchanged(context.device) && unchanged(context.device.allocations)
    ensures old(context.vertexBufferAddress) == 0 ==>
      r == AllocateResult(size, old(context.device.poolUsed), context.device.poolSize, old(context.device.allocationCount))
    ensures old(context.vertexBufferAddress) == 0 && r != Success ==>
      unchanged(context) && unchanged(context.device) && unchanged(context.device.allocations)
    ensures old(context.vertexBufferAddress) == 0 && r == Success ==>
      AllocatedFrom(context.device, size, context.vertexBufferAddress) &&
      MapResult(context.device.allocations[..], context.vertexBufferAddress, size) == Success
  {
    if context.vertexBufferAddress != 0 {
      return Success;
    }
    var device := context.device;
    var address;
    r, address := Allocate(device, size);
    if r != Success {
      return r;
    }
    context.vertexBufferAddress := address;
    MapAfterAllocate(device, FirstFree(old(device.allocations[..])), size);
  }

  /**
   * Every allocation takes a slot that is never given back, so once 256
   * allocations exist every further request is refused with `OUT_OF_MEMORY`.
   */
  lemma TableFullRefuses(size: u64, used: u64, poolSize: u64)
    requires size != 0
    ensures AllocateResult(size, used, poolSize, MAX_ALLOCATIONS as u32) == OutOfMemory
  {
  }

  /**
   * The pool `gibgo_create_device` leaves behind has size 0 (nothing in the
   * modelled files sets it), so on exact integers every nonzero request on a
   * new device is refused with `OUT_OF_MEMORY`.
   */
  lemma EmptyPoolRefuses(size: u64, count: u32)
    requires size != 0
    ensures AllocateResult(size, 0, 0, count) == OutOfMemory
  {
  }

  /**
   * As written, the `u64` rounding turns every size from 2^64 - 255 up into
   * 0, so the capacity test `pool_used + aligned_size > pool_size` passes on
   * the empty pool and such a request goes on to the slot table.
   */
  lemma EmptyPoolAsWrittenAccepts(size: u64)
    requires size as nat >= TWO_64 - (ALIGNMENT - 1)
    ensures AlignAsWritten(size) == 0 && !ExhaustedAsWritten(0, AlignAsWritten(size), 0)
  {
  }
}
