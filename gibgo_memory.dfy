// The `gibgoGraphics` GPU memory manager: a bump allocator over the VRAM
// range with no allocation table (`gibgo_allocate_gpu_memory`), the no-op
// `gibgo_free_gpu_memory`, the range check of `gibgo_map_gpu_memory` in
// front of a DRM dumb buffer, `gibgo_unmap_gpu_memory`, and context creation
// and vertex upload on top. Whether the host has memory for the buffer
// record, whether the dumb buffer can be created and mapped, and whether
// `munmap` succeeds, are inputs; the mapping they give is a fresh buffer,
// unrelated to the VRAM allocation.
module GibgoMemory {
  import opened MachineWords
  import opened GpuCore
  import opened GpuAlignment
  import opened GpuDevices

  /** Bytes of the 800 x 600 RGBA8 framebuffer a context allocates. */
  const FRAMEBUFFER_SIZE: u64 := 800 * 600 * 4
  /** `framebuffer_format` of a new context (RGBA8). */
  const FORMAT_RGBA8: u32 := 0x8888

  /**
   * What `gibgo_map_gpu_memory` meets once the range check has passed: no
   * host memory for the `DRMBuffer` record, a dumb buffer that could not be
   * created or mapped, or the pointer of the mapped dumb buffer.
   */
  datatype DumbBuffer = NoHostMemory | MapFailed | Mapped(pointer: u64)

  // ---------------------------------------------------------------------------
  // Specification of the allocator
  // ---------------------------------------------------------------------------

  /**
   * The result of `gibgo_allocate_gpu_memory(size)` with `offset` of the
   * `vramSize` bytes of VRAM handed out (sizes are aligned on exact
   * integers; the `u64` wrap-around of the C code is a documented finding).
   */
  function AllocateResult(size: u64, offset: u64, vramSize: u64): GpuResult
  {
    if size == 0 then InvalidParameter
    else if Exhausted(offset, AlignUp(size), vramSize) then OutOfMemory
    else Success
  }

  /**
   * The allocator is the exact bump allocator of `GpuAlignment`: it succeeds
   * exactly when `Bump` does, hands out the VRAM base plus the old offset,
   * and moves the offset to where `Bump` moves it, never past the VRAM size.
   */
  lemma AllocateIsBump(base: u64, offset: u64, vramSize: u64, size: u64)
    requires offset <= vramSize
    ensures (AllocateResult(size, offset, vramSize) == Success) == Bump(base, offset, vramSize, size).0
    ensures AllocateResult(size, offset, vramSize) == Success ==>
      Bump(base, offset, vramSize, size).1 == Wrap64(base + offset) &&
      Bump(base, offset, vramSize, size).2 == offset + AlignUp(size) <= vramSize
    ensures AllocateResult(size, offset, vramSize) == InvalidParameter <==> size == 0
  {
  }

  /**
   * Two successful allocations in a row, inside a VRAM range that does not
   * wrap around the 64-bit address space, are handed increasing addresses
   * whose aligned ranges do not overlap.
   */
  lemma SuccessiveAllocationsDisjoint(base: u64, offset: u64, vramSize: u64, s1: u64, s2: u64)
    requires offset <= vramSize && base as nat + vramSize as nat < TWO_64
    requires AllocateResult(s1, offset, vramSize) == Success
    requires AllocateResult(s2, offset + AlignUp(s1), vramSize) == Success
    ensures Wrap64(base + offset) + AlignUp(s1) <= Wrap64(base + offset + AlignUp(s1))
    ensures Wrap64(base + offset) < Wrap64(base + offset + AlignUp(s1))
    ensures Wrap64(base + offset + AlignUp(s1)) + AlignUp(s2) <= base + vramSize
  {
  }

  // ---------------------------------------------------------------------------
  // The range check of the mapper
  // ---------------------------------------------------------------------------

  /**
   * `gpu_address < base || gpu_address + size > base + vram.size` with both
   * sums evaluated in `u64`: true means `INVALID_PARAMETER`.
   */
  predicate RangeRejectedAsWritten(base: u64, vramSize: u64, address: u64, size: u64)
  {
    address < base || Wrap64(address + size) > Wrap64(base + vramSize)
  }

  /** The range check on exact integers: the range must lie inside VRAM. */
  predicate RangeRejected(base: u64, vramSize: u64, address: u64, size: u64)
  {
    address < base || address + size > base + vramSize
  }

  /**
   * As written, a range that runs past the end of the address space wraps
   * and passes the check: with VRAM at `0x1000` of size `0x1000`, the range
   * of `2^64 - 0x1000` bytes at `0x1000` is accepted.
   */
  lemma RangeAsWrittenAcceptsWrapped()
    ensures !RangeRejectedAsWritten(0x1000, 0x1000, 0x1000, TWO_64 - 0x1000)
    ensures RangeRejected(0x1000, 0x1000, 0x1000, TWO_64 - 0x1000)
  {
    assert Wrap64(0x1000 + (TWO_64 - 0x1000)) == 0;
  }

  /**
   * The exact check accepts a range exactly when it lies inside
   * `[base, base + vramSize]`, and the check as written agrees with it
   * whenever neither sum wraps.
   */
  lemma RangeCheckMeaning(base: u64, vramSize: u64, address: u64, size: u64)
    ensures !RangeRejected(base, vramSize, address, size) <==>
      base <= address && address + size <= base + vramSize
    ensures address as nat + size as nat < TWO_64 && base as nat + vramSize as nat < TWO_64 ==>
      RangeRejectedAsWritten(base, vramSize, address, size) == RangeRejected(base, vramSize, address, size)
  {
  }

  /**
   * The result of `gibgo_map_gpu_memory(address, size)`: size 0 and ranges
   * outside VRAM are `INVALID_PARAMETER`; otherwise the outcome of the
   * dumb-buffer step.
   */
  function MapResult(base: u64, vramSize: u64, address: u64, size: u64, mapping: DumbBuffer): GpuResult
  {
    if size == 0 || RangeRejected(base, vramSize, address, size) then InvalidParameter
    else DumbBufferResult(mapping)
  }

  /**
   * The result of the dumb-buffer step: `OUT_OF_MEMORY` without the buffer
   * record, `MEMORY_MAP_FAILED` when creating or mapping the buffer fails.
   */
  function DumbBufferResult(mapping: DumbBuffer): GpuResult
  {
    match mapping
    case NoHostMemory => OutOfMemory
    case MapFailed => MemoryMapFailed
    case Mapped(_) => Success
  }

  /**
   * Memory just handed out by the allocator passes the range check for any
   * size up to its aligned size, so mapping it fails only if the dumb buffer
   * does.
   */
  lemma MapAfterAllocate(base: u64, offset: u64, vramSize: u64, size: u64, mapSize: u64, mapping: DumbBuffer)
    requires AllocateResult(size, offset, vramSize) == Success && base as nat + vramSize as nat < TWO_64
    requires 0 < mapSize as nat <= AlignUp(size)
    ensures MapResult(base, vramSize, Wrap64(base + offset), mapSize, mapping) == DumbBufferResult(mapping)
  {
  }

  // ---------------------------------------------------------------------------
  // Operations
  // ---------------------------------------------------------------------------

  /**
   * `gibgo_allocate_gpu_memory(size)`: `INVALID_PARAMETER` for size 0,
   * `OUT_OF_MEMORY` when the aligned size does not fit in what is left of
   * VRAM, with nothing changed; on success the VRAM base plus the old
   * offset, and the offset grows by exactly the aligned size.
   */
  method Allocate(device: GpuDevice, size: u64) returns (r: GpuResult, address: u64)
    modifies device
    ensures r == AllocateResult(size, old(device.vramAllocationOffset), device.vramSize)
    ensures r != Success ==> address == 0 && unchanged(device)
    ensures r == Success ==>
      address == Wrap64(device.vramBase + old(device.vramAllocationOffset)) &&
      device.vramAllocationOffset == old(device.vramAllocationOffset) + AlignUp(size) &&
      device.fenceCounter == old(device.fenceCounter) &&
      device.commandsSubmitted == old(device.commandsSubmitted) &&
      device.framesRendered == old(device.framesRendered) &&
      device.poolUsed == old(device.poolUsed) && device.allocationCount == old(device.allocationCount) &&
      device.slotOffsets == old(device.slotOffsets)
  {
    if size == 0 {
      return InvalidParameter, 0;
    }
    var aligned := AlignUp(size);
    if device.vramAllocationOffset as nat + aligned > device.vramSize as nat {
      return OutOfMemory, 0;
    }
    address := Wrap64(device.vramBase + device.vramAllocationOffset);
    device.vramAllocationOffset := device.vramAllocationOffset + aligned;
    r := Success;
  }

  /** `gibgo_free_gpu_memory`: only logs; always `SUCCESS`, and nothing is given back. */
  method Free(device: GpuDevice, address: u64, size: u64) returns (r: GpuResult)
    ensures r == Success
  {
    return Success;
  }

  /**
   * `gibgo_map_gpu_memory(address, size)`: the range check, then the buffer
   * record and the dumb buffer; on success the pointer is the dumb buffer's
   * mapping.
   */
  method Map(device: GpuDevice, address: u64, size: u64, mapping: DumbBuffer) returns (r: GpuResult, pointer: u64)
    ensures r == MapResult(device.vramBase, device.vramSize, address, size, mapping)
    ensures r == Success ==> mapping.Mapped? && pointer == mapping.pointer
  {
    if size == 0 {
      return InvalidParameter, 0;
    }
    if address as nat < device.vramBase as nat ||
       address as nat + size as nat > device.vramBase as nat + device.vramSize as nat {
      return InvalidParameter, 0;
    }
    if mapping.NoHostMemory? {
      return OutOfMemory, 0;
    }
    if mapping.MapFailed? {
      return MemoryMapFailed, 0;
    }
    return Success, mapping.pointer;
  }

  /**
   * `gibgo_unmap_gpu_memory(pointer)` (`unmapped` is whether `munmap`
   * succeeds): a null pointer is `INVALID_PARAMETER`, a failed `munmap`
   * `MEMORY_MAP_FAILED`.
   */
  method Unmap(device: GpuDevice, pointer: u64, size: u64, unmapped: bool) returns (r: GpuResult)
    ensures r == (if pointer == 0 then InvalidParameter else if !unmapped then MemoryMapFailed else Success)
  {
    if pointer == 0 {
      return InvalidParameter;
    }
    if !unmapped {
      return MemoryMapFailed;
    }
    return Success;
  }

  /**
   * `gibgo_create_context(device)` (`hostMemory` is whether `calloc` of the
   * context succeeds): without host memory `OUT_OF_MEMORY` and nothing
   * changes; otherwise a context of an 800 x 600 RGBA8 framebuffer, fence 1
   * and frame 0, whose framebuffer memory is a fresh allocation of
   * 800 * 600 * 4 bytes; when that allocation fails its result is returned
   * and no context exists.
   */
  method CreateContext(device: GpuDevice, hostMemory: bool) returns (r: GpuResult, context: Context?)
    modifies device
    ensures r == if !hostMemory then OutOfMemory else AllocateResult(FRAMEBUFFER_SIZE, old(device.vramAllocationOffset), device.vramSize)
    ensures r != Success ==> context == null && unchanged(device)
    ensures r == Success ==>
      context != null && fresh(context) && context.device == device &&
      context.framebufferAddress == Wrap64(device.vramBase + old(device.vramAllocationOffset)) &&
      device.vramAllocationOffset == old(device.vramAllocationOffset) + AlignUp(FRAMEBUFFER_SIZE) &&
      device.fenceCounter == old(device.fenceCounter) &&
      device.commandsSubmitted == old(device.commandsSubmitted) &&
      device.framesRendered == old(device.framesRendered) &&
      context.framebufferWidth == FB_WIDTH && context.framebufferHeight == FB_HEIGHT &&
      context.framebufferFormat == FORMAT_RGBA8 && context.frameFence == 1 && context.currentFrameIndex == 0 &&
      context.vertexBufferAddress == 0 && context.vertexCount == 0 &&
      context.vertexShaderAddress == 0 && context.fragmentShaderAddress == 0
  {
    if !hostMemory {
      return OutOfMemory, null;
    }
    var address;
    r, address := Allocate(device, Wrap32(FB_WIDTH as int * FB_HEIGHT as int * 4));
    if r != Success {
      return r, null;
    }
    context := new Context(device);
    context.currentFrameIndex := 0;
    context.frameFence := 1;
    context.framebufferWidth := FB_WIDTH;
    context.framebufferHeight := FB_HEIGHT;
    context.framebufferFormat := FORMAT_RGBA8;
    context.framebufferAddress := address;
  }

  /**
   * `gibgo_destroy_context`: frees the framebuffer and vertex buffer, which
   * gives no VRAM back, and reports `SUCCESS`.
   */
  method DestroyContext(context: Context) returns (r: GpuResult)
    ensures r == Success
  {
    if context.framebufferAddress != 0 {
      var _ := Free(context.device, context.framebufferAddress,
                    Wrap32(context.framebufferWidth as int * context.framebufferHeight as int * 4));
    }
    if context.vertexBufferAddress != 0 {
      var _ := Free(context.device, context.vertexBufferAddress, 1024 * 1024);
    }
    return Success;
  }

  /**
   * `gibgo_upload_vertices(data, count, stride)` (`hasData` is
   * `vertex_data != NULL`; `mapping` and `unmapped` are the dumb buffer's
   * outcomes): rejects missing data or a zero count or stride; allocates
   * `count * stride` bytes (a `u32` product) only when the context has no
   * vertex buffer yet, passing on a failure; then maps the buffer, passing
   * on a failure, ignores the result of the unmap, and records the stride
   * and count.
   */
  method UploadVertices(context: Context, hasData: bool, count: u32, stride: u32,
                        mapping: DumbBuffer, unmapped: bool) returns (r: GpuResult)
    modifies context, context.device
    ensures !hasData || count == 0 || stride == 0 ==>
      r == InvalidParameter && unchanged(context) && unchanged(context.device)
    ensures hasData && count != 0 && stride != 0 && old(context.vertexBufferAddress) != 0 ==>
      unchanged(context.device) && context.vertexBufferAddress == old(context.vertexBufferAddress) &&
      r == MapResult(context.device.vramBase, context.device.vramSize, context.vertexBufferAddress,
                     Wrap32(count as int * stride as int), mapping)
    ensures hasData && count != 0 && stride != 0 && old(context.vertexBufferAddress) == 0 ==>
      var size := Wrap32(count as int * stride as int);
      var outcome := AllocateResult(size, old(context.device.vramAllocationOffset), context.device.vramSize);
      (outcome != Success ==> r == outcome && unchanged(context) && unchanged(context.device)) &&
      (outcome == Success ==>
         context.vertexBufferAddress == Wrap64(context.device.vramBase + old(context.device.vramAllocationOffset)) &&
         context.device.vramAllocationOffset == old(context.device.vramAllocationOffset) + AlignUp(size) &&
         r == MapResult(context.device.vramBase, context.device.vramSize, context.vertexBufferAddress, size, mapping))
    ensures r == Success ==> context.vertexBufferStride == stride && context.vertexCount == count
    ensures r != Success ==> context.vertexBufferStride == old(context.vertexBufferStride) &&
                             context.vertexCount == old(context.vertexCount)
    ensures context.framebufferAddress == old(context.framebufferAddress) &&
            context.frameFence == old(context.frameFence) &&
            context.currentFrameIndex == old(context.currentFrameIndex)
    ensures context.device.fenceCounter == old(context.device.fenceCounter) &&
            context.device.commandsSubmitted == old(context.device.commandsSubmitted) &&
            context.device.framesRendered == old(context.device.framesRendered)
  {
    if !hasData || count == 0 || stride == 0 {
      return InvalidParameter;
    }
    var device := context.device;
    var size: u64 := Wrap32(count as int * stride as int);
    if context.vertexBufferAddress == 0 {
      var address;
      r, address := Allocate(device, size);
      if r != Success {
        return r;
      }
      context.vertexBufferAddress := address;
    }
    var pointer;
    r, pointer := Map(device, context.vertexBufferAddress, size, mapping);
    if r != Success {
      return r;
    }
    var _ := Unmap(device, pointer, size, unmapped);
    context.vertexBufferStride := stride;
    context.vertexCount := count;
  }

  /**
   * Unlike the `directDrm` table lookup, the range check does not remember
   * the first upload's size: once a vertex buffer exists at the start of
   * VRAM, an upload of any larger size that still fits in VRAM passes the
   * check, although only the first size was allocated.
   */
  lemma LargerUploadPassesRangeCheck(base: u64, vramSize: u64, first: u64, later: u64, mapping: DumbBuffer)
    requires 0 < first < later && later as nat <= vramSize as nat && base as nat + vramSize as nat < TWO_64
    requires mapping.Mapped?
    ensures MapResult(base, vramSize, base, later, mapping) == Success
    ensures MapResult(base, vramSize, base, first, mapping) == Success
  {
  }
}
