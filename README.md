# gibgoGame software GPU layer — a Dafny model

This project models the software "GPU" that the gibgoGame rendering test programs are built on:
a CPU-emulated device that owns a VRAM bump allocator, a 256-entry command list that
applications record into, a ring buffer of four-word command records that the list is
submitted through, a consumer that executes the records against the framebuffer and the fence
register, and the `gibgo_*` graphics facades on top. Two variants of the layer are covered side
by side: the `directDrm` rotating cube (with its triangle sibling), which executes the list in
software before writing it to an unconsumed ring, and the `gibgoGraphics` rotating cube, which
writes the whole list into the ring and then drains it with a consumer loop that keeps a
`gpu_state` record and writes fences. Both rasterise the drawn triangles into the framebuffer;
the coverage, colour and depth arithmetic is floating point and enters as a `Shader` function,
while the model keeps which triangles are rasterised and in which order they overwrite pixels
(`Rasteriser`).

Around that core the model also covers the integer skeleton of the surrounding helpers:

- the bit-level float helpers and vector/matrix constructors of `math.h` and the byte-swap and
  endianness helpers of `types.h`;
- the cube tables of `cube_geometry.h` / `cube_geometry.c`: the corners, the index table, and the
  faces and their winding;
- the cached camera of `camera.h` and the uniform block of `uniform_buffer.c`, with the
  floating-point matrix functions kept as uninterpreted terms;
- the PCI configuration-space decoding of `gpu_device.c` (vendor, class and BAR0 address);
- the PPM reader and the integer statistics and verdicts of the screenshot analyser
  `analyze_screenshot.py`.

C structures whose fields are updated in place are classes (`GpuDevice`, `Context`,
`CommandList`, `CommandRing`, `GpuState`, the camera, the graphics system); value records are
datatypes. The C global command list is a `CommandList` object passed to the recording
functions. Unsigned 32- and 64-bit arithmetic is written out with explicit wrap-around
(`MachineWords`). Each loop of the source is a method with its invariants, proved against a
specification function. The source's promises are stated as ensures clauses and lemmas over
those functions.

## Model

| member | source | states |
|---|---|---|
| GpuCore.AddressLow | unit_testing/linux/x11/directDrm/basic/rotating_cube/gpu_commands.c:272 | the low parameter is below 2^32 and differs from the address by a multiple of 2^32, i.e. it is the address's low 32 bits |
| GpuCore.AddressHigh | unit_testing/linux/x11/directDrm/basic/rotating_cube/gpu_commands.c:273 | the high parameter is the index of the 4 GiB block holding the address, i.e. its upper 32 bits |
| GpuCore.JoinAddress | unit_testing/linux/x11/gibgoGraphics/basic/rotating_cube/gpu_commands.c:329 | the joined address has the low parameter in its low 32 bits and the high parameter above them |
| GpuCore.AddressRoundTrip | unit_testing/linux/x11/directDrm/basic/rotating_cube/gpu_commands.c:419 | splitting an address into two command parameters and joining them again gives the address back |
| GpuCore.ParameterRoundTrip | unit_testing/linux/x11/gibgoGraphics/basic/rotating_cube/gpu_commands.c:329 | joining two parameters and splitting the result gives both parameters back |
| GibgoTypes.F32MasksPartition | unit_testing/linux/x11/vulkan/basic/triangle/types.h:85-89 | the binary32 sign, exponent and mantissa masks are pairwise disjoint, cover all 32 bits, and agree with the exponent shift |
| GibgoTypes.F64MasksPartition | unit_testing/linux/x11/vulkan/basic/triangle/types.h:91-95 | the same for the binary64 masks and shift |
| GibgoTypes.Fields | unit_testing/linux/x11/vulkan/basic/triangle/types.h:43-57 | the bit-field view of an `f32` has a 1-bit sign, an 8-bit exponent and a 23-bit mantissa, and reassembling them gives the raw bits |
| GibgoTypes.U16SwapBytes | unit_testing/linux/x11/vulkan/basic/triangle/types.h:140-142 | the two bytes of the result are those of the input, exchanged |
| GibgoTypes.U32SwapBytes | unit_testing/linux/x11/vulkan/basic/triangle/types.h:144-149 | byte i of the result is byte 3 - i of the input |
| GibgoTypes.U64SwapBytes | unit_testing/linux/x11/vulkan/basic/triangle/types.h:151-160 | byte i of the result is byte 7 - i of the input |
| GibgoTypes.U16SwapInvolution | unit_testing/linux/x11/vulkan/basic/triangle/types.h:140-142 | swapping twice gives the input back |
| GibgoTypes.U32SwapInvolution | unit_testing/linux/x11/vulkan/basic/triangle/types.h:144-149 | swapping twice gives the input back |
| GibgoTypes.U64SwapInvolution | unit_testing/linux/x11/vulkan/basic/triangle/types.h:151-160 | swapping twice gives the input back |
| GibgoTypes.U32ToLe | unit_testing/linux/x11/vulkan/basic/triangle/types.h:163-169 | on a little-endian host the word is unchanged, otherwise its bytes are reversed |
| GibgoTypes.U32FromLe | unit_testing/linux/x11/vulkan/basic/triangle/types.h:171-177 | on a little-endian host the word is unchanged, otherwise its bytes are reversed |
| GibgoTypes.LeRoundTrip | unit_testing/linux/x11/vulkan/basic/triangle/types.h:163-177 | converting to little-endian and back, or back and then to little-endian, gives the word itself on either host |
| GpuAlignment.AlignUp | unit_testing/linux/x11/directDrm/basic/rotating_cube/gpu_memory.c:24-26 | the result is a multiple of 256, at least the size, and less than the size plus 256 |
| GpuAlignment.AlignUpIsLeast | unit_testing/linux/x11/directDrm/basic/rotating_cube/gpu_memory.c:24-26 | the rounding is the least multiple of 256 not below the size, and a multiple of 256 stays unchanged |
| GpuAlignment.AlignAsWrittenExact | unit_testing/linux/x11/directDrm/basic/rotating_cube/gpu_memory.c:24-26 | below 2^64 - 256 the `u64` rounding as written equals the exact rounding |
| GpuAlignment.AlignAsWrittenWrapsToZero | unit_testing/linux/x11/directDrm/basic/rotating_cube/gpu_memory.c:24-26 | the `u64` rounding as written turns the size 2^64 - 1 into 0 |
| GpuAlignment.Bump | unit_testing/linux/x11/directDrm/basic/rotating_cube/gpu_memory.c:34-42 | on exact integers a request succeeds exactly when the size is nonzero and the aligned size fits under the limit; the address is the base plus the old offset and the offset grows by the aligned size and stays under the limit |
| GpuAlignment.BumpAsWrittenReusesAddress | unit_testing/linux/x11/directDrm/basic/rotating_cube/gpu_memory.c:35-38 | as written, a 2^64 - 256 byte request passes the capacity check, wraps the offset to 0, and the next allocation gets the first one's address |
| GpuAlignment.BumpRefusesOversized | unit_testing/linux/x11/directDrm/basic/rotating_cube/gpu_memory.c:35-38 | on exact integers that oversized request is refused |
| GpuAlignment.BumpRangesDisjoint | unit_testing/linux/x11/directDrm/basic/rotating_cube/gpu_memory.c:60-72 | two successive successful allocations occupy consecutive, non-overlapping offset ranges |
| DrmMemory.FirstFreeFrom | unit_testing/linux/x11/directDrm/basic/rotating_cube/gpu_memory.c:50-57 | the slot found is the first slot not in use, or 0 when every slot is taken |
| DrmMemory.FindGpuFrom | unit_testing/linux/x11/directDrm/basic/rotating_cube/gpu_memory.c:103-118 | the lookup returns the first in-use slot holding the GPU address, and none exactly when no in-use slot holds it |
| DrmMemory.FindCpuFrom | unit_testing/linux/x11/directDrm/basic/rotating_cube/gpu_memory.c:133-141 | the lookup returns an in-use slot owning the CPU pointer, and none exactly when no in-use slot owns it |
| DrmMemory.MapFindsOwner | unit_testing/linux/x11/directDrm/basic/rotating_cube/gpu_memory.c:103-118 | in a well-formed table the lookup by GPU address finds the one slot that holds it |
| DrmMemory.UnmapFindsOwner | unit_testing/linux/x11/directDrm/basic/rotating_cube/gpu_memory.c:133-141 | in a well-formed table the lookup by CPU pointer finds the one slot that owns it |
| DrmMemory.FindFreeSlot | unit_testing/linux/x11/directDrm/basic/rotating_cube/gpu_memory.c:50-57 | the slot-search loop returns the first free slot |
| DrmMemory.AllocateResult | unit_testing/linux/x11/directDrm/basic/rotating_cube/gpu_memory.c:29-48 | the allocator's result from the size, the pool use, the pool size and the allocation count, in the source's order of checks; DrmMemory.Allocate, TableFullRefuses and EmptyPoolRefuses state its properties |
| DrmMemory.Allocate | unit_testing/linux/x11/directDrm/basic/rotating_cube/gpu_memory.c:29-78 | size 0 is rejected; a request that does not fit in the pool or finds all 256 slots taken gets out-of-memory and changes nothing; a success records the allocation in the first free slot, grows the pool by the aligned size and keeps the pool invariants |
| DrmMemory.Free | unit_testing/linux/x11/directDrm/basic/rotating_cube/gpu_memory.c:81-92 | freeing always succeeds and gives nothing back |
| DrmMemory.MapResult | unit_testing/linux/x11/directDrm/basic/rotating_cube/gpu_memory.c:96-124 | the map's result from the allocation table, the address and the size; DrmMemory.Map and DrmMemory.MapAfterAllocate state its properties |
| DrmMemory.Map | unit_testing/linux/x11/directDrm/basic/rotating_cube/gpu_memory.c:96-124 | mapping succeeds exactly when the size is nonzero and fits the allocation found at the address, and then yields that allocation's CPU pointer |
| DrmMemory.Unmap | unit_testing/linux/x11/directDrm/basic/rotating_cube/gpu_memory.c:128-145 | unmapping succeeds exactly when the pointer is non-null and owned by an in-use slot |
| DrmMemory.MapAfterAllocate | unit_testing/linux/x11/directDrm/basic/rotating_cube/gpu_memory.c:59-72 | an allocation just recorded can be mapped for any size up to its aligned size, and its pointer can be unmapped |
| DrmMemory.CreateContext | unit_testing/linux/x11/directDrm/basic/rotating_cube/gpu_memory.c:148-180 | a refused context record is OUT_OF_MEMORY with nothing allocated; otherwise a new context describes an 800 x 600 RGBA8 framebuffer with fence 1 and frame 0, backed by a fresh allocation; a failed allocation is passed on and no context exists |
| DrmMemory.NewContext | unit_testing/linux/x11/directDrm/basic/rotating_cube/gpu_memory.c:153-165 | the context filled in has the default framebuffer parameters, fence 1, frame 0 and no vertex or uniform buffer |
| DrmMemory.DestroyContext | unit_testing/linux/x11/directDrm/basic/rotating_cube/gpu_memory.c:183-203 | destroying a context always succeeds |
| DrmMemory.UploadVertices | unit_testing/linux/x11/directDrm/basic/rotating_cube/gpu_memory.c:206-242 | missing data, a zero count or a zero stride are rejected with nothing changed; the vertex buffer is allocated only once, for the u32 product of count and stride; any allocation or mapping failure is passed on; a success records stride and count |
| DrmMemory.CopyThroughMapping | unit_testing/linux/x11/directDrm/basic/rotating_cube/gpu_memory.c:221-232 | the copy step fails exactly as mapping the buffer fails |
| DrmMemory.SetVertexLayout | unit_testing/linux/x11/directDrm/basic/rotating_cube/gpu_memory.c:235-236 | the context records the uploaded stride and count |
| DrmMemory.EnsureVertexBuffer | unit_testing/linux/x11/directDrm/basic/rotating_cube/gpu_memory.c:213-221 | an existing vertex buffer is kept; otherwise the buffer is allocated, and a buffer just allocated maps for the upload size |
| DrmMemory.TableFullRefuses | unit_testing/linux/x11/directDrm/basic/rotating_cube/gpu_memory.c:45-48 | once 256 allocations exist every further request is refused with out-of-memory |
| DrmMemory.EmptyPoolRefuses | unit_testing/linux/x11/directDrm/basic/rotating_cube/gpu_memory.c:37-43 | on exact integers a pool of size 0 refuses every nonzero request with out-of-memory; the sizes from 2^64 - 255 up are the exception as written (EmptyPoolAsWrittenAccepts) |
| DrmMemory.EmptyPoolAsWrittenAccepts | unit_testing/linux/x11/directDrm/basic/rotating_cube/gpu_memory.c:35-38 | as written, every size from 2^64 - 255 up is rounded to 0 on `u64` and passes the capacity test of the empty pool |
| GibgoMemory.AllocateIsBump | unit_testing/linux/x11/gibgoGraphics/basic/rotating_cube/gpu_memory.c:30-55 | the allocator succeeds exactly when the exact bump allocator does, hands out the VRAM base plus the old offset, and never moves the offset past the VRAM size; it rejects exactly size 0 |
| GibgoMemory.SuccessiveAllocationsDisjoint | unit_testing/linux/x11/gibgoGraphics/basic/rotating_cube/gpu_memory.c:46-51 | two successive allocations get increasing addresses whose aligned ranges do not overlap and stay inside VRAM |
| GibgoMemory.RangeAsWrittenAcceptsWrapped | unit_testing/linux/x11/gibgoGraphics/basic/rotating_cube/gpu_memory.c:131-132 | the range check as written accepts a range that wraps past the end of the 64-bit address space |
| GibgoMemory.RangeCheckMeaning | unit_testing/linux/x11/gibgoGraphics/basic/rotating_cube/gpu_memory.c:131-136 | the exact check accepts a range exactly when it lies inside VRAM, and agrees with the check as written whenever neither sum wraps |
| GibgoMemory.MapAfterAllocate | unit_testing/linux/x11/gibgoGraphics/basic/rotating_cube/gpu_memory.c:125-163 | memory just allocated passes the range check for any size up to its aligned size, so mapping it fails only if the dumb buffer does |
| GibgoMemory.AllocateResult | unit_testing/linux/x11/gibgoGraphics/basic/rotating_cube/gpu_memory.c:30-43 | the allocator's result from the size, the VRAM offset and the VRAM size; AllocateIsBump and SuccessiveAllocationsDisjoint state its properties |
| GibgoMemory.Allocate | unit_testing/linux/x11/gibgoGraphics/basic/rotating_cube/gpu_memory.c:30-55 | size 0 is rejected; a request that does not fit in the VRAM left gets out-of-memory and changes nothing; a success returns the VRAM base plus the old offset and grows the offset by the aligned size, with counters unchanged |
| GibgoMemory.Free | unit_testing/linux/x11/gibgoGraphics/basic/rotating_cube/gpu_memory.c:58-69 | freeing always succeeds and gives nothing back |
| GibgoMemory.MapResult | unit_testing/linux/x11/gibgoGraphics/basic/rotating_cube/gpu_memory.c:125-147 | the map's result from the VRAM range and the DRM-buffer outcome; GibgoMemory.Map, GibgoMemory.MapAfterAllocate, LargerUploadPassesRangeCheck and RangeCheckMeaning state its properties |
| GibgoMemory.Map | unit_testing/linux/x11/gibgoGraphics/basic/rotating_cube/gpu_memory.c:125-163 | size 0 and ranges outside VRAM are invalid; inside VRAM a refused DRM-buffer record is OUT_OF_MEMORY, a failed dumb buffer is a map failure, and a success yields the dumb buffer's pointer |
| GibgoMemory.Unmap | unit_testing/linux/x11/gibgoGraphics/basic/rotating_cube/gpu_memory.c:166-179 | a null pointer is invalid, a failed unmap is a map failure, anything else succeeds |
| GibgoMemory.CreateContext | unit_testing/linux/x11/gibgoGraphics/basic/rotating_cube/gpu_memory.c:182-214 | a refused context record is OUT_OF_MEMORY with nothing allocated; otherwise a new context describes an 800 x 600 RGBA8 framebuffer with fence 1 and frame 0 at a fresh allocation; a failed allocation is passed on and no context exists |
| GibgoMemory.DestroyContext | unit_testing/linux/x11/gibgoGraphics/basic/rotating_cube/gpu_memory.c:217-237 | destroying a context always succeeds |
| GibgoMemory.UploadVertices | unit_testing/linux/x11/gibgoGraphics/basic/rotating_cube/gpu_memory.c:240-276 | missing data, a zero count or a zero stride are rejected with nothing changed; the vertex buffer is allocated once, for the u32 product of count and stride; allocation failures and the map's failures (out of memory for the DRM-buffer record, map failure for the dumb buffer) are passed on, the unmap result is ignored, and a success records stride and count |
| GibgoMemory.LargerUploadPassesRangeCheck | unit_testing/linux/x11/gibgoGraphics/basic/rotating_cube/gpu_memory.c:248-257 | once a vertex buffer exists at the start of VRAM, a larger later upload that fits in VRAM still passes the range check |
| GpuDevices.CountInUse | unit_testing/linux/x11/directDrm/basic/rotating_cube/gpu_memory.c:71 | the number of in-use entries never exceeds the table size |
| GpuDevices.GpuDevice.Claim | unit_testing/linux/x11/directDrm/basic/rotating_cube/gpu_memory.c:59-72 | the free slot records the VRAM address and pool pointer at the current offset, the pool, offset and count grow by the aligned size and one, and the pool invariants (count matches the table, ranges disjoint) are kept |
| GpuDevices.GpuDevice.constructor | unit_testing/linux/x11/directDrm/basic/rotating_cube/gpu_device.c:280-289 | a zeroed device: every table entry free, every counter and offset zero |
| GpuDevices.Context.constructor | unit_testing/linux/x11/directDrm/basic/rotating_cube/gpu_memory.c:153 | a zeroed context bound to its device |
| GpuDevices.FreeSlotExists | unit_testing/linux/x11/directDrm/basic/rotating_cube/gpu_memory.c:45-57 | with fewer than 256 allocations counted, the slot search has a free slot to find |
| GpuDevices.CountAfterClaim | unit_testing/linux/x11/directDrm/basic/rotating_cube/gpu_memory.c:67-71 | marking a free slot in use adds exactly one to the count of in-use slots |
| GpuDevices.LayoutEmpty | unit_testing/linux/x11/directDrm/basic/rotating_cube/gpu_memory.c:70 | a table with no slot in use satisfies the pool layout invariant |
| GpuDevices.LayoutAfterClaim | unit_testing/linux/x11/directDrm/basic/rotating_cube/gpu_memory.c:59-72 | recording an allocation at the current pool offset keeps every in-use range inside the pool and pairwise disjoint |
| GpuDevices.DistinctAddresses | unit_testing/linux/x11/directDrm/basic/rotating_cube/gpu_memory.c:59-61 | different in-use slots hold different GPU addresses and different CPU pointers |
| GpuDeviceInit.FenceInsideFramebuffer | unit_testing/linux/x11/directDrm/basic/rotating_cube/gpu_device.c:341-391 | for every vendor the command-processor block is word aligned and its fence register lies inside the 800 x 600 buffer |
| GpuDeviceInit.RingAllocationAsWrittenOverruns | unit_testing/linux/x11/directDrm/basic/rotating_cube/gpu_device.c:376-378 | the ring as allocated holds 1024 words, yet 256 records from an empty ring already use all of them and the ring still accepts a 257th record |
| GpuDeviceInit.ClearFramebufferToColor | unit_testing/linux/x11/directDrm/basic/rotating_cube/gpu_device.c:254-258 | the first width * height words (a u32 product) become the colour and the rest of the buffer is untouched |
| GpuDeviceInit.NewDevice | unit_testing/linux/x11/directDrm/basic/rotating_cube/gpu_device.c:328-401 | the new device has the framebuffer cleared to dark grey, the vendor's register offsets, VRAM 16 MiB past BAR0 with nothing allocated, an empty 1024-slot ring, the fence register set up and fence counter 1 |
| GpuDeviceInit.CreateDevice | unit_testing/linux/x11/directDrm/basic/rotating_cube/gpu_device.c:261-401 | enumeration errors are passed on, an index past the GPUs found is invalid, a refused device record or ring is OUT_OF_MEMORY, an unopenable DRM device is access denied and a failed framebuffer is a map failure (the outcome of CreateResult); a device exists exactly on success, in its initial state for the chosen GPU |
| GpuDeviceInit.CreateResult | unit_testing/linux/x11/directDrm/basic/rotating_cube/gpu_device.c:261-401 | the outcome of device creation from the enumeration and the allocation and open outcomes, in the source's order of checks; CreateOutcomes and CreateDevice state its properties |
| GpuDeviceInit.CreateOutcomes | unit_testing/linux/x11/directDrm/basic/rotating_cube/gpu_device.c:261-401 | the outcome function CreateResult: no device exactly when the directory did not open or held no display controller; success exactly when the index names one of the first 16 GPUs found and every host allocation, the DRM device and the framebuffer were granted; out of memory exactly when the GPU was chosen and the device record, or the ring after everything else, was refused |
| GpuDeviceInit.CountEmpty | unit_testing/linux/x11/directDrm/basic/rotating_cube/gpu_device.c:280 | a zeroed table counts no allocations |
| GpuDeviceInit.WriteRegister | unit_testing/linux/x11/directDrm/basic/rotating_cube/gpu_device.c:464-475 | an offset past the register space is invalid and writes nothing; otherwise exactly word offset / 4 takes the value |
| GpuDeviceInit.ReadRegister | unit_testing/linux/x11/directDrm/basic/rotating_cube/gpu_device.c:477-488 | the same bounds check, then the value of word offset / 4, with nothing changed |
| GpuDeviceInit.RegisterRoundTrip | unit_testing/linux/x11/directDrm/basic/rotating_cube/gpu_device.c:464-488 | writing a register inside the register space and reading it back through WriteRegister and ReadRegister returns the value written, with every other register unchanged; outside the space both fail with INVALID_PARAMETER and nothing changes |
| CommandList.AddSemantics | unit_testing/linux/x11/directDrm/basic/rotating_cube/gpu_commands.c:60-77 | adding a command is invalid exactly when no list is open and fails exactly when the open list is full; a failure changes nothing and a success appends exactly the command, keeping the list within its buffer |
| CommandList.AddedAllAppends | unit_testing/linux/x11/directDrm/basic/rotating_cube/gpu_commands.c:60-77 | on an open list with room, a run of add_command calls whose results are ignored appends exactly those commands, in order |
| CommandList.AddedAllClosed | unit_testing/linux/x11/directDrm/basic/rotating_cube/gpu_commands.c:61-63 | with no list open, every add_command is rejected and nothing is recorded |
| CommandList.AddedAllPrefix | unit_testing/linux/x11/directDrm/basic/rotating_cube/gpu_commands.c:65-70 | ignored-result recording appends a prefix of the commands, so the list never exceeds its buffer and earlier entries stay |
| CommandList.AddedAllKeepsShape | unit_testing/linux/x11/directDrm/basic/rotating_cube/gpu_commands.c:60-77 | recording never opens or closes the list nor changes its capacity |
| CommandList.AddedAllClosedFull | unit_testing/linux/x11/directDrm/basic/rotating_cube/gpu_commands.c:65-68 | a full list rejects every further command |
| CommandList.AddedAllSnoc | unit_testing/linux/x11/directDrm/basic/rotating_cube/gpu_commands.c:60-77 | recording one more command after a run is the same as recording the longer run |
| CommandList.AddedAllGrowth | unit_testing/linux/x11/directDrm/basic/rotating_cube/gpu_commands.c:60-77 | recording a run never shrinks the list and adds at most one command per command of the run |
| CommandList.CommandRecorder.constructor | unit_testing/linux/x11/directDrm/basic/rotating_cube/gpu_commands.c:48-50 | at program start no list is open, with zero count and capacity |
| CommandList.AddCommand | unit_testing/linux/x11/directDrm/basic/rotating_cube/gpu_commands.c:60-77 | the result and the new list are those the add_command semantics give |
| CommandList.AddCommands | unit_testing/linux/x11/directDrm/basic/rotating_cube/gpu_commands.c:60-77 | a loop of add_command calls leaves the list that recording the whole run gives |
| CommandList.BeginCommands | unit_testing/linux/x11/directDrm/basic/rotating_cube/gpu_commands.c:147-163 | beginning discards any open list; a refused command buffer is OUT_OF_MEMORY with no list open, otherwise a fresh empty list of 256 commands is open and the result is SUCCESS |
| CommandList.EndCommands | unit_testing/linux/x11/directDrm/basic/rotating_cube/gpu_commands.c:166-173 | ending is invalid exactly when no list is open, and changes nothing |
| CommandList.ResetList | unit_testing/linux/x11/directDrm/basic/rotating_cube/gpu_commands.c:184-188 | after submission the list is closed with zero count and capacity |
| CommandRingModel.WriteSlot | unit_testing/linux/x11/directDrm/basic/rotating_cube/gpu_commands.c:123-127 | storing a record keeps the buffer length |
| CommandRingModel.WriteThenRead | unit_testing/linux/x11/directDrm/basic/rotating_cube/gpu_commands.c:123-127 | a stored record reads back from its slot and every other slot keeps its record |
| CommandRingModel.NextSlot | unit_testing/linux/x11/directDrm/basic/rotating_cube/gpu_commands.c:103 | the successor of a slot is a slot of the ring |
| CommandRingModel.Advance | unit_testing/linux/x11/directDrm/basic/rotating_cube/gpu_commands.c:130 | advancing any number of times stays inside the ring |
| CommandRingModel.NextSlotInRange | unit_testing/linux/x11/directDrm/basic/rotating_cube/gpu_commands.c:103 | the successor is the next index, wrapping to 0 at the end |
| CommandRingModel.AdvanceIsOffset | unit_testing/linux/x11/directDrm/basic/rotating_cube/gpu_commands.c:99-130 | fewer than capacity advances are an offset that wraps at most once |
| CommandRingModel.AdvanceDistinct | unit_testing/linux/x11/directDrm/basic/rotating_cube/gpu_commands.c:99-130 | within one lap the producer visits pairwise distinct slots |
| CommandRingModel.DistanceReaches | unit_testing/linux/x11/directDrm/basic/rotating_cube/gpu_commands.c:103-104 | advancing the head by the number of waiting records reaches the tail, and no fewer advances do |
| CommandRingModel.DistanceStep | unit_testing/linux/x11/directDrm/basic/rotating_cube/gpu_commands.c:103 | consuming one record shortens the queue by one |
| CommandRingModel.RingImage | unit_testing/linux/x11/directDrm/basic/rotating_cube/gpu_commands.c:99-134 | storing a run of records keeps the buffer length |
| CommandRingModel.ReadRing | unit_testing/linux/x11/directDrm/basic/rotating_cube/gpu_commands.c:99-134 | reading n records gives n records |
| CommandRingModel.RingImageRecord | unit_testing/linux/x11/directDrm/basic/rotating_cube/gpu_commands.c:123-130 | within one lap, record k of the run is in the slot k advances past the starting tail |
| CommandRingModel.RingImageUntouched | unit_testing/linux/x11/directDrm/basic/rotating_cube/gpu_commands.c:123-130 | a slot the producer did not reach keeps its record |
| CommandRingModel.ReadBackProduced | unit_testing/linux/x11/directDrm/basic/rotating_cube/gpu_commands.c:99-134 | FIFO order: reading back from where the producer started gives exactly the commands it stored |
| CommandRingModel.Produce | unit_testing/linux/x11/directDrm/basic/rotating_cube/gpu_commands.c:99-134 | the producer loop as a function of head, tail, capacity, head register and record count; ProduceShape, ProduceFits, ProduceWithoutConsumer, HeadStaysInRingExactly and ReadBackProduced state its properties |
| CommandRingModel.ProduceShape | unit_testing/linux/x11/directDrm/basic/rotating_cube/gpu_commands.c:99-134 | the producer stores a prefix of the records, all of them unless it times out, and the tail ends after the last one stored |
| CommandRingModel.AdvanceAfterNext | unit_testing/linux/x11/directDrm/basic/rotating_cube/gpu_commands.c:103-130 | advancing from the successor is advancing once more |
| CommandRingModel.ProduceFits | unit_testing/linux/x11/directDrm/basic/rotating_cube/gpu_commands.c:102-104 | records that fit in the free slots are all stored without waiting, and the head stays |
| CommandRingModel.ProduceWithoutConsumer | unit_testing/linux/x11/directDrm/basic/rotating_cube/gpu_commands.c:102-119 | when nothing consumes the ring exactly the free slots are filled and any record beyond them times out |
| CommandRingModel.HeadStaysInRingExactly | unit_testing/linux/x11/gibgoGraphics/basic/rotating_cube/gpu_commands.c:424-435 | the producer ends with the head inside the ring exactly when the records fit the free slots or the head register read on a full ring names a slot |
| CommandRingModel.ProduceLeavesRing | unit_testing/linux/x11/gibgoGraphics/basic/rotating_cube/gpu_commands.c:424-435 | when the records do not fit the free slots and the head register names no slot, the producer ends holding that register value as its head |
| CommandRingModel.ProduceFromOutside | unit_testing/linux/x11/gibgoGraphics/basic/rotating_cube/gpu_commands.c:424-435 | once the head is a register value outside the ring, it stays that value for every further record |
| CommandRingModel.EmptyRingHoldsCapacityMinusOne | unit_testing/linux/x11/directDrm/basic/rotating_cube/gpu_commands.c:103-104 | from an empty ring with no consumer the producer stores at most capacity - 1 records without timing out |
| CommandRingModel.CommandRing.constructor | unit_testing/linux/x11/directDrm/basic/rotating_cube/gpu_device.c:376-388 | a new ring of the given capacity has head and tail 0 and four buffer words per slot |
| CommandRingModel.AwaitFreeSlot | unit_testing/linux/x11/directDrm/basic/rotating_cube/gpu_commands.c:104-119 | the full-ring wait times out exactly when the head register points at the next slot, and the head becomes the register's value |
| CommandRingModel.WriteCommands | unit_testing/linux/x11/directDrm/basic/rotating_cube/gpu_commands.c:99-134 | the producer loop leaves the head, tail, timeout and buffer contents that the producer specification gives |
| CommandRingModel.StoreRecord | unit_testing/linux/x11/directDrm/basic/rotating_cube/gpu_commands.c:100-130 | one iteration either times out with nothing stored or stores the record at the tail and advances it, continuing the producer specification |
| CommandRingModel.WriteSlotInPlace | unit_testing/linux/x11/directDrm/basic/rotating_cube/gpu_commands.c:123-127 | the four words of the slot become the record and the rest of the buffer is unchanged |
| RingSubmission.PushToRing | unit_testing/linux/x11/directDrm/basic/rotating_cube/gpu_commands.c:96-140 | the ring holds the commands as the producer specification gives; a timeout is reported with the registers untouched, otherwise the tail register holds the new tail and the start register 1 |
| RingSubmission.PushFits | unit_testing/linux/x11/directDrm/basic/rotating_cube/gpu_commands.c:99-134 | a ring with room takes all commands without reading the head register, and reading them back from the old tail gives them in order |
| RingSubmission.CountSubmitted | unit_testing/linux/x11/directDrm/basic/rotating_cube/gpu_commands.c:142 | the submitted-command count grows by the number of commands, wrapping at 2^64 |
| FenceWait.WaitResult | unit_testing/linux/x11/directDrm/basic/rotating_cube/gpu_commands.c:194-215 | the wait's result from the fence register and the awaited value; WaitMonotone and WaitForCompletion state its properties |
| FenceWait.WaitMonotone | unit_testing/linux/x11/directDrm/basic/rotating_cube/gpu_commands.c:202 | waiting succeeds for every value up to the fence register's and times out exactly for values above it |
| FenceWait.WaitForCompletion | unit_testing/linux/x11/directDrm/basic/rotating_cube/gpu_commands.c:194-215 | the wait succeeds exactly when the fence register already holds at least the value, and times out otherwise |
| FrameRecording.NumberingsDistinct | unit_testing/linux/x11/directDrm/basic/rotating_cube/gpu_commands.c:25-36 | no two commands of either numbering share a code |
| FrameRecording.DrawRecords | unit_testing/linux/x11/directDrm/basic/triangle/gpu_commands.c:263-283 | on an open list with room, drawing appends the vertex-buffer command, the clear and the draw in order, and the first names exactly the context's vertex buffer |
| FrameRecording.PresentRecords | unit_testing/linux/x11/directDrm/basic/triangle/gpu_commands.c:286-308 | on an open list with room, presenting appends the present command naming the framebuffer and then the fence command; with a full or closed list nothing is recorded |
| FrameRecording.SetViewport | unit_testing/linux/x11/directDrm/basic/triangle/gpu_commands.c:196-205 | the context's framebuffer size becomes width x height and the viewport command's add result is returned |
| FrameRecording.DrawPrimitives | unit_testing/linux/x11/directDrm/basic/triangle/gpu_commands.c:263-283 | records the draw commands for the context's vertex buffer and always succeeds |
| FrameRecording.PresentFrame | unit_testing/linux/x11/directDrm/basic/triangle/gpu_commands.c:286-308 | the device's u32 fence counter grows by one and becomes the frame's fence, the present and fence commands are recorded, the frame index and frame count grow by one, and the result is always success |
| Rasteriser.RasterizeTriangle | unit_testing/linux/x11/directDrm/basic/rotating_cube/gpu_commands.c:645-696 | one rasteriser call writes the colour the shader gives at each pixel the triangle covers and leaves every other pixel as it was |
| Rasteriser.RasterizeNext | unit_testing/linux/x11/gibgoGraphics/basic/rotating_cube/gpu_commands.c:286-303 | rasterising one more triangle turns the image of the earlier triangles over a base image into the image of all of them, in order |
| Rasteriser.PaintedUncovered | unit_testing/linux/x11/directDrm/basic/rotating_cube/gpu_commands.c:686-689 | a pixel that none of the triangles writes keeps its colour |
| Rasteriser.PaintedLastWriter | unit_testing/linux/x11/directDrm/basic/rotating_cube/gpu_commands.c:686-689 | a pixel shows the colour given by the last triangle that writes it |
| CubeCommands.RecordedSettingsReadBack | unit_testing/linux/x11/directDrm/basic/rotating_cube/gpu_commands.c:417-450 | the software renderer reads the uniform command back as the buffer address and the culling command as the flag, and ignores the depth-test command |
| CubeCommands.SetUniformBuffer | unit_testing/linux/x11/directDrm/basic/rotating_cube/gpu_commands.c:333-349 | the context remembers the uniform buffer, and the uniform command's add result is returned |
| CubeCommands.EnableDepthTest | unit_testing/linux/x11/directDrm/basic/rotating_cube/gpu_commands.c:352-368 | the context remembers the setting and both planes, and the depth-test command carrying the planes' bits is recorded and its result returned |
| CubeCommands.EnableFaceCulling | unit_testing/linux/x11/directDrm/basic/rotating_cube/gpu_commands.c:371-380 | the culling command is recorded and its result returned |
| CubeCommands.LoadShaders | unit_testing/linux/x11/directDrm/basic/rotating_cube/gpu_commands.c:230-282 | INVALID_PARAMETER with nothing changed when either SPIR-V pointer is null; otherwise the first failing shader allocation is returned with nothing recorded; after both succeed the shaders sit at successive pool offsets and the two shader commands are recorded |
| CubeCommands.CopyAndRecordShaders | unit_testing/linux/x11/directDrm/basic/rotating_cube/gpu_commands.c:250-279 | the copy through map and unmap changes nothing, and the two shader commands are recorded in order |
| CubeCommands.AllocateShaders | unit_testing/linux/x11/directDrm/basic/rotating_cube/gpu_commands.c:238-248 | the result is the first failing allocation's; on success both shader addresses are stored, the fragment shader right after the vertex shader, and the pool and slot count grow by both |
| CubeCommands.AllocateFromPool | unit_testing/linux/x11/directDrm/basic/rotating_cube/gpu_memory.c:29-78 | the allocation's result, its address at the old VRAM offset and the growth of the pool and slot count |
| CubeCommands.SubmitToHardware | unit_testing/linux/x11/directDrm/basic/rotating_cube/gpu_commands.c:80-144 | the software renderer runs over the list first: the framebuffer ends as the scanned image (all 0xFF111111 when the list clears, otherwise as it was) with exactly the triangles the scan and the allocation table let through rasterised over it in order; then the commands go to the ring; only a submission that did not time out adds to the u64 command count; the fence register is not written |
| CubeCommands.SubmitCommands | unit_testing/linux/x11/directDrm/basic/rotating_cube/gpu_commands.c:176-191 | with no list open the result is invalid and nothing changes; otherwise the recorded list is rendered into the framebuffer as SubmitToHardware says, submitted, the list is freed whatever the outcome, and the outcome is returned |
| CubeExecution.Step | unit_testing/linux/x11/directDrm/basic/rotating_cube/gpu_commands.c:414-451 | the renderer's scan of one command; CubeCommands.RecordedSettingsReadBack, ExtractAppend, SkippedCommandsKeepState and LastVertexBufferWins state its properties |
| CubeExecution.ExtractAppend | unit_testing/linux/x11/directDrm/basic/rotating_cube/gpu_commands.c:414-451 | scanning two lists one after the other is scanning their concatenation |
| CubeExecution.SkippedCommandsKeepState | unit_testing/linux/x11/directDrm/basic/rotating_cube/gpu_commands.c:447-449 | commands the scan does not react to leave the rendering state as it was |
| CubeExecution.LastVertexBufferWins | unit_testing/linux/x11/directDrm/basic/rotating_cube/gpu_commands.c:423-426 | after a vertex-buffer command no later one replaces, the state holds that command's address |
| CubeExecution.ScanSeesRecordedFrame | unit_testing/linux/x11/directDrm/basic/rotating_cube/gpu_commands.c:285-330 | the frame the draw and present recorders append is read back with the recorded vertex buffer, count and first vertex, a cleared framebuffer, and the uniform buffer and culling flag kept |
| CubeExecution.TriangleStartsBounds | unit_testing/linux/x11/directDrm/basic/rotating_cube/gpu_commands.c:769-776 | every visited triangle reads only vertices below the count, the starts are first + 3k, and there are (count - first) / 3 of them |
| CubeExecution.CullingOnlyRemoves | unit_testing/linux/x11/directDrm/basic/rotating_cube/gpu_commands.c:798-812 | face culling never draws a triangle that would not be drawn without it |
| CubeExecution.RenderCube | unit_testing/linux/x11/directDrm/basic/rotating_cube/gpu_commands.c:714-821 | a failed or null map of the vertex or uniform buffer ends the render; otherwise the drawn triangles are exactly the valid, not culled ones among the starts, and drawn plus clipped counts every start; the drawn triangles are rasterised over the framebuffer in order |
| CubeExecution.VisitTriangles | unit_testing/linux/x11/directDrm/basic/rotating_cube/gpu_commands.c:765-813 | the triangle loop draws exactly the starts the drawing specification keeps, rasterising each over the framebuffer in order, and counts every other one as clipped |
| CubeExecution.VisitOneMore | unit_testing/linux/x11/directDrm/basic/rotating_cube/gpu_commands.c:769-771 | moving the next start from the unvisited to the visited starts keeps their concatenation |
| CubeExecution.DrawnAppend | unit_testing/linux/x11/directDrm/basic/rotating_cube/gpu_commands.c:798-812 | the drawn triangles of one more start are those of the earlier starts plus that one when it is valid and not culled |
| CubeExecution.ExecuteCommands | unit_testing/linux/x11/directDrm/basic/rotating_cube/gpu_commands.c:397-461 | the framebuffer ends as the scanned image (all 0xFF111111 when the list holds a clear, otherwise as it was) with the drawn triangles rasterised over it in order; drawing is attempted exactly when the scanned state has a vertex buffer and a positive count; it fails exactly when the vertex buffer, or else the uniform buffer, does not map to an allocation, and otherwise draws the valid, not culled starts; the result is always success |
| CubeExecution.ScanClearsExactly | unit_testing/linux/x11/directDrm/basic/rotating_cube/gpu_commands.c:440-443 | the scan has cleared exactly when the list holds a clear command |
| CubeExecution.RenderedFramePixels | unit_testing/linux/x11/directDrm/basic/rotating_cube/gpu_commands.c:440-457 | in the frame the renderer leaves, a pixel no drawn triangle writes is 0xFF111111 after a list with a clear and keeps its colour otherwise, and a written pixel shows the colour of the last triangle writing it |
| CubeExecution.TriangleLoopAsWrittenReadsPastCount | unit_testing/linux/x11/directDrm/basic/rotating_cube/gpu_commands.c:769-776 | with count 2^32 - 1 the 32-bit loop does not stop at vertex 2^32 - 2 and reads vertex 2^32 - 1, past the count |
| CubeExecution.TriangleLoopAsWrittenExactBelowMaximum | unit_testing/linux/x11/directDrm/basic/rotating_cube/gpu_commands.c:769-776 | below that one count the 32-bit loop stops and reads exactly as the exact loop does |
| TriangleCommands.SubmitToHardware | unit_testing/linux/x11/directDrm/basic/triangle/gpu_commands.c:66-122 | the commands go to the ring as the producer specification gives, and only a submission that did not time out adds to the u64 command count |
| TriangleCommands.SubmitCommands | unit_testing/linux/x11/directDrm/basic/triangle/gpu_commands.c:154-169 | with no list open the result is invalid and nothing changes; otherwise the list is submitted, freed whatever the outcome, and the outcome returned |
| TriangleCommands.LoadShaders | unit_testing/linux/x11/directDrm/basic/triangle/gpu_commands.c:208-260 | INVALID_PARAMETER with nothing changed when either SPIR-V pointer is null; otherwise the first failing allocation is returned with nothing recorded; after both succeed the context holds both shader addresses and the two shader commands are recorded |
| CubeGeometry.GetCubeVertices | unit_testing/linux/x11/directDrm/basic/rotating_cube/cube_geometry.h:15-27 | the table holds eight vertices, each a distinct corner of the cube [-1, 1]^3 with zero padding |
| CubeGeometry.GetCubeIndices | unit_testing/linux/x11/directDrm/basic/rotating_cube/cube_geometry.h:31-49 | 36 indices, each naming one of the eight vertices |
| CubeGeometry.CornerTable | unit_testing/linux/x11/directDrm/basic/rotating_cube/cube_geometry.h:15-27 | the vertex positions read as integers are the eight corners in table order |
| CubeGeometry.TriangleCorner | unit_testing/linux/x11/directDrm/basic/rotating_cube/cube_geometry.h:31-49 | corner k of triangle t is the integer position of the vertex its index names |
| CubeGeometry.NormalSideIsTripleProduct | unit_testing/linux/x11/directDrm/basic/rotating_cube/cube_geometry.h:30 | the outward-normal test of a triangle is the scalar triple product of its corners |
| CubeGeometry.SignMulIsProduct | unit_testing/linux/x11/directDrm/basic/rotating_cube/cube_geometry.h:30 | multiplying by a coordinate in {-1, 0, 1} without a product is the product |
| CubeGeometry.SignCrossIsCross | unit_testing/linux/x11/directDrm/basic/rotating_cube/cube_geometry.h:30 | on cube corners the multiplication-free cross product is the cross product |
| CubeGeometry.SignDotIsDot | unit_testing/linux/x11/directDrm/basic/rotating_cube/cube_geometry.h:30 | on cube corners the multiplication-free dot product is the dot product |
| CubeGeometry.OrientationIsNormalSide | unit_testing/linux/x11/directDrm/basic/rotating_cube/cube_geometry.h:30 | on cube corners the multiplication-free orientation is the outward-normal test |
| CubeGeometry.FaceAxis | unit_testing/linux/x11/directDrm/basic/rotating_cube/cube_geometry.h:32-48 | each face is orthogonal to one of the three axes |
| CubeGeometry.QuadFromCorners | unit_testing/linux/x11/directDrm/basic/rotating_cube/cube_geometry.h:32-48 | six indices of the form a b c a c d over four distinct corners in one face plane form a quad face |
| CubeGeometry.TriangleFromCorners | unit_testing/linux/x11/directDrm/basic/rotating_cube/cube_geometry.h:31-49 | a triangle whose corners turn positively winds counter-clockwise seen from outside |
| CubeGeometry.FaceStructure | unit_testing/linux/x11/directDrm/basic/rotating_cube/cube_geometry.h:32-48 | each of the six faces (front, back, left, right, bottom, top) is two triangles sharing a diagonal over four distinct corners in that face's plane |
| CubeGeometry.WindingFrontBack | unit_testing/linux/x11/directDrm/basic/rotating_cube/cube_geometry.h:32-36 | the four front and back triangles wind counter-clockwise seen from outside |
| CubeGeometry.WindingLeftRight | unit_testing/linux/x11/directDrm/basic/rotating_cube/cube_geometry.h:38-42 | the four left and right triangles wind counter-clockwise seen from outside |
| CubeGeometry.WindingBottomTop | unit_testing/linux/x11/directDrm/basic/rotating_cube/cube_geometry.h:44-48 | the four bottom and top triangles wind counter-clockwise seen from outside |
| CubeGeometry.CounterClockwiseWinding | unit_testing/linux/x11/directDrm/basic/rotating_cube/cube_geometry.h:30-49 | all 12 triangles wind counter-clockwise seen from outside the cube, as the table's comment promises |
| CubeGeometry.CornersAreUnit | unit_testing/linux/x11/directDrm/basic/rotating_cube/cube_geometry.h:13-27 | every table corner has coordinates of absolute value 1 |
| CubeGeometry.OutwardNormals | unit_testing/linux/x11/directDrm/basic/rotating_cube/cube_geometry.h:30-49 | every triangle's normal points out of the cube |
| CubeGeometry.GenerateTriangleList | unit_testing/linux/x11/directDrm/basic/rotating_cube/cube_geometry.c:5-17 | with either output absent nothing is written; otherwise the count becomes 36 and output vertex i is the table vertex named by index i, with nothing beyond touched |
| CameraCache.ZeroMatrix | unit_testing/linux/x11/directDrm/basic/rotating_cube/camera.h:40-51 | every component of the initial cached matrices is zero |
| CameraCache.Camera.Default | unit_testing/linux/x11/directDrm/basic/rotating_cube/camera.h:29-56 | the default camera sits 8 units back on z looking at the origin with y up, 45-degree field of view, 4:3 aspect, planes 0.1 and 100, zero cached matrices and the dirty flag set |
| CameraCache.UpdateMatrices | unit_testing/linux/x11/directDrm/basic/rotating_cube/camera.h:59-79 | a clean camera is left alone; a dirty one gets the view, projection and projection * view of its current parameters and becomes clean, with its parameters unchanged |
| CameraCache.SetPosition | unit_testing/linux/x11/directDrm/basic/rotating_cube/camera.h:82-86 | only the position changes and the cache becomes dirty |
| CameraCache.SetTarget | unit_testing/linux/x11/directDrm/basic/rotating_cube/camera.h:89-93 | only the target changes and the cache becomes dirty |
| CameraCache.SetAspectRatio | unit_testing/linux/x11/directDrm/basic/rotating_cube/camera.h:96-100 | only the aspect ratio changes and the cache becomes dirty |
| CameraCache.GetViewMatrix | unit_testing/linux/x11/directDrm/basic/rotating_cube/camera.h:103-107 | the result is the view matrix of the current parameters; a camera already clean is not touched |
| CameraCache.GetProjectionMatrix | unit_testing/linux/x11/directDrm/basic/rotating_cube/camera.h:109-113 | the result is the projection matrix of the current parameters; a camera already clean is not touched |
| CameraCache.GetViewProjectionMatrix | unit_testing/linux/x11/directDrm/basic/rotating_cube/camera.h:115-119 | the result is projection * view of the current parameters; a camera already clean is not touched |
| UniformBuffer.UniformBuffer.constructor | unit_testing/linux/x11/directDrm/basic/rotating_cube/uniform_buffer.c:4 | a uniform block holding the given matrices, position and time |
| UniformBuffer.Initialize | unit_testing/linux/x11/directDrm/basic/rotating_cube/uniform_buffer.c:4-18 | all four matrices become the identity and the camera position and time zero |
| UniformBuffer.UpdateMatrices | unit_testing/linux/x11/directDrm/basic/rotating_cube/uniform_buffer.c:21-37 | with every argument present the three matrices are stored and the MVP is projection * (view * model), position and time kept; an absent argument changes nothing |
| UniformBuffer.SetTime | unit_testing/linux/x11/directDrm/basic/rotating_cube/uniform_buffer.c:40-45 | only the time changes |
| UniformBuffer.SetCameraPosition | unit_testing/linux/x11/directDrm/basic/rotating_cube/uniform_buffer.c:48-53 | only the camera position changes; an absent position changes nothing |
| GibgoMath.Neg | unit_testing/linux/x11/directDrm/basic/rotating_cube/math.h:88-92 | negation flips the sign bit and keeps the magnitude bits |
| GibgoMath.Abs | unit_testing/linux/x11/directDrm/basic/rotating_cube/math.h:94-98 | absolute value clears the sign bit and keeps the magnitude bits |
| GibgoMath.NegInvolution | unit_testing/linux/x11/directDrm/basic/rotating_cube/math.h:88-92 | negating twice gives the value back |
| GibgoMath.AbsIdempotent | unit_testing/linux/x11/directDrm/basic/rotating_cube/math.h:94-98 | absolute value is idempotent and ignores a negation |
| GibgoMath.EqIsBitEquality | unit_testing/linux/x11/directDrm/basic/rotating_cube/math.h:101-103 | equality compares bits, so the two zeros differ and a NaN equals itself |
| GibgoMath.Vec3fCreate | unit_testing/linux/x11/directDrm/basic/rotating_cube/math.h:170-172 | the created vector has the given coordinates and zero padding |
| GibgoMath.Vec3fToVec4f | unit_testing/linux/x11/directDrm/basic/rotating_cube/math.h:278-281 | widening keeps x, y, z and sets w |
| GibgoMath.Vec2fToVec3f | unit_testing/linux/x11/directDrm/basic/rotating_cube/math.h:283-285 | widening keeps x, y, sets z and zero padding |
| GibgoMath.Vec4fToVec3f | unit_testing/linux/x11/directDrm/basic/rotating_cube/math.h:288-290 | narrowing keeps x, y, z with zero padding |
| GibgoMath.Vec3fToVec2f | unit_testing/linux/x11/directDrm/basic/rotating_cube/math.h:293-295 | narrowing keeps x and y |
| GibgoMath.ConversionRoundTrips | unit_testing/linux/x11/directDrm/basic/rotating_cube/math.h:278-296 | widening then narrowing gives the vector back (padding normalised to zero) |
| GibgoMath.Identity | unit_testing/linux/x11/directDrm/basic/rotating_cube/math.h:381-389 | ones on the diagonal, zeros elsewhere |
| GibgoMath.Translate | unit_testing/linux/x11/directDrm/basic/rotating_cube/math.h:432-439 | the identity with the offsets in column 3 |
| GibgoMath.TranslateVec | unit_testing/linux/x11/gibgoGraphics/basic/rotating_cube/math.h:464-470 | the vector translation is the same matrix as the three-argument one |
| GibgoMath.Scale | unit_testing/linux/x11/directDrm/basic/rotating_cube/math.h:441-448 | the identity with the factors on the first three diagonal entries |
| GibgoCommands.RecordedSettingsReadBack | unit_testing/linux/x11/gibgoGraphics/basic/rotating_cube/gpu_commands.c:329-385 | each recorded SET command, once consumed, sets exactly its own pipeline fields to the recorded values; depth-buffer, depth-clear and indexed-draw records leave the state alone, and an indexed draw runs exactly when both a vertex and an index buffer are set |
| GibgoCommands.ShaderCommandsReadBack | unit_testing/linux/x11/gibgoGraphics/basic/rotating_cube/gpu_commands.c:337-345 | the two shader records, consumed in order, set the two shader addresses and nothing else |
| GibgoCommands.SetDepthBuffer | unit_testing/linux/x11/gibgoGraphics/basic/rotating_cube/gpu_commands.c:661-675 | SUCCESS, and the recorder state is that of recording the depth-buffer command |
| GibgoCommands.ClearDepthBuffer | unit_testing/linux/x11/gibgoGraphics/basic/rotating_cube/gpu_commands.c:678-692 | SUCCESS, and the recorder state is that of recording the depth value's bits |
| GibgoCommands.EnableDepthTest | unit_testing/linux/x11/gibgoGraphics/basic/rotating_cube/gpu_commands.c:695-705 | SUCCESS, and the recorder state is that of recording 1 or 0 |
| GibgoCommands.SetDepthCompare | unit_testing/linux/x11/gibgoGraphics/basic/rotating_cube/gpu_commands.c:709-723 | SUCCESS, and the recorder state is that of recording the compare operation, whatever its value |
| GibgoCommands.SetMatrices | unit_testing/linux/x11/gibgoGraphics/basic/rotating_cube/gpu_commands.c:726-739 | SUCCESS, and the recorder state is that of recording the matrix buffer's address |
| GibgoCommands.SetIndexBuffer | unit_testing/linux/x11/gibgoGraphics/basic/rotating_cube/gpu_commands.c:742-755 | SUCCESS, and the recorder state is that of recording the index buffer's address and format |
| GibgoCommands.DrawIndexed | unit_testing/linux/x11/gibgoGraphics/basic/rotating_cube/gpu_commands.c:758-768 | SUCCESS, and the recorder state is that of recording the draw |
| GibgoCommands.SetVertexBuffer | unit_testing/linux/x11/gibgoGraphics/basic/rotating_cube/gpu_commands.c:771-784 | SUCCESS, and the recorder state is that of recording the vertex buffer's address |
| GibgoCommands.ShaderAllocationMeaning | unit_testing/linux/x11/gibgoGraphics/basic/rotating_cube/gpu_commands.c:558-610 | loading shaders fails with INVALID_PARAMETER exactly for an empty shader reached, succeeds exactly when both shaders are non-empty and their aligned sizes fit in what is left of VRAM, and otherwise fails with OUT_OF_MEMORY |
| GibgoCommands.LoadShaders | unit_testing/linux/x11/gibgoGraphics/basic/rotating_cube/gpu_commands.c:558-610 | INVALID_PARAMETER with nothing changed when either SPIR-V pointer is null; otherwise the result is that of the first failing allocation or SUCCESS; each successful allocation places its shader at the next aligned VRAM offset, a failed one leaves its address and the offset alone; on success both shader commands are recorded, otherwise the recorder is unchanged; counters and other context fields are untouched |
| GibgoCommands.SubmitToHardware | unit_testing/linux/x11/gibgoGraphics/basic/rotating_cube/gpu_commands.c:409-472 | accepts every ring whose producer leaves the head inside the ring (HeadStaysInRing); SUCCESS or GPU_TIMEOUT; after a timeout only the ring push happened; on success the records sit in the ring after the old tail, the consumer drained the ring from the pushed registers (leaving the framebuffer as the image of the last indexed draw when its depth buffer was granted, and as it was otherwise), and the command count is added with 64-bit wrap-around |
| GibgoCommands.SubmitCommands | unit_testing/linux/x11/gibgoGraphics/basic/rotating_cube/gpu_commands.c:504-519 | INVALID_PARAMETER with nothing touched when no list is open; otherwise the recorded list goes through SubmitToHardware, under the same ring condition, with the same outcome, and the list is freed whatever the result |
| GibgoCommands.DeliveredFromEmptyRing | unit_testing/linux/x11/gibgoGraphics/basic/rotating_cube/gpu_commands.c:317-402 | a submission from an empty ring of fewer records than slots hands the consumer exactly the submitted list, in order |
| GibgoCommands.PendingAfterEmptyPush | unit_testing/linux/x11/gibgoGraphics/basic/rotating_cube/gpu_commands.c:430-455 | pushing fewer records than slots into an empty ring does not wait, and the records between head and new tail are exactly the pushed ones |
| GibgoExecution.GpuState.constructor | unit_testing/linux/x11/gibgoGraphics/basic/rotating_cube/gpu_commands.c:79-91 | the static pipeline state starts with every field zero |
| GibgoExecution.Consume | unit_testing/linux/x11/gibgoGraphics/basic/rotating_cube/gpu_commands.c:327-399 | the pipeline state change of one consumed record; GibgoCommands.RecordedSettingsReadBack, GibgoExecution.ApplyToState and GibgoExecution.ConsumerStep state its properties |
| GibgoExecution.ApplyToState | unit_testing/linux/x11/gibgoGraphics/basic/rotating_cube/gpu_commands.c:327-385 | the pipeline state after one record is the consumer's transition function applied to it |
| GibgoExecution.SelectedAppend | unit_testing/linux/x11/gibgoGraphics/basic/rotating_cube/gpu_commands.c:276-287 | filtering the triangle starts distributes over appending one start |
| GibgoExecution.SelectedAll | unit_testing/linux/x11/gibgoGraphics/basic/rotating_cube/gpu_commands.c:276-287 | a filter that keeps every start keeps the whole sequence |
| GibgoExecution.SelectedAccepted | unit_testing/linux/x11/gibgoGraphics/basic/rotating_cube/gpu_commands.c:276-287 | every start the filter keeps is one of the inputs and passes the test |
| GibgoExecution.IndexedTrianglesAppend | unit_testing/linux/x11/gibgoGraphics/basic/rotating_cube/gpu_commands.c:276-287 | the rasterised triangles of one more start are those before plus that start when its three entries are in the table and name stored vertices |
| GibgoExecution.IndexTableBound | unit_testing/linux/x11/gibgoGraphics/basic/rotating_cube/gpu_commands.c:226-239 | every entry of the 36-entry index table is below 24 |
| GibgoExecution.IndexedTrianglesComplete | unit_testing/linux/x11/gibgoGraphics/basic/rotating_cube/gpu_commands.c:246-287 | with at least 24 stored vertices and a draw inside the table, every visited triangle is rasterised |
| GibgoExecution.IndexedTrianglesSafe | unit_testing/linux/x11/gibgoGraphics/basic/rotating_cube/gpu_commands.c:276-287 | every rasterised triangle is a visited one whose table reads and vertex reads are in bounds |
| GibgoExecution.ReadTriangle | unit_testing/linux/x11/gibgoGraphics/basic/rotating_cube/gpu_commands.c:280-290 | the triangle is drawn exactly when its three entries are in the table and name stored vertices |
| GibgoExecution.DrawIndexedTriangles | unit_testing/linux/x11/gibgoGraphics/basic/rotating_cube/gpu_commands.c:276-300 | the drawn triangles are exactly the rasterisable ones among the loop's starts 0, 3, ... with i + 2 < count, in order, and each is rasterised over the framebuffer in that order |
| GibgoExecution.ExecuteIndexedDrawing | unit_testing/linux/x11/gibgoGraphics/basic/rotating_cube/gpu_commands.c:188-308 | a refused depth buffer returns with the framebuffer untouched and nothing drawn; otherwise the framebuffer becomes the dark blue clear with the drawn triangles rasterised over it in order; nothing is drawn without stored vertices or with fewer than 24, otherwise exactly the triangles of DrawIndexedTriangles |
| GibgoExecution.IndexedImagePixels | unit_testing/linux/x11/gibgoGraphics/basic/rotating_cube/gpu_commands.c:212-303 | in the image of an indexed draw, a pixel no drawn triangle writes is dark blue and a written pixel shows the colour of the last triangle writing it |
| GibgoExecution.IndexedImageWithoutVertices | unit_testing/linux/x11/gibgoGraphics/basic/rotating_cube/gpu_commands.c:242-252 | without stored vertices or with fewer than 24 the image of an indexed draw is the plain dark blue clear |
| GibgoExecution.ReadRingExtend | unit_testing/linux/x11/gibgoGraphics/basic/rotating_cube/gpu_commands.c:317-323 | reading one more record from the ring appends the record of the next slot |
| GibgoExecution.ExecuteRecord | unit_testing/linux/x11/gibgoGraphics/basic/rotating_cube/gpu_commands.c:327-397 | one record: the state transition, the indexed draw when both buffers are set (the framebuffer becoming that draw's image when its depth buffer is granted), one more frame for a present, the fence value into the fence register when there is one, and nothing else |
| GibgoExecution.ConsumerStep | unit_testing/linux/x11/gibgoGraphics/basic/rotating_cube/gpu_commands.c:317-401 | the state, draw list, frame count and last fence after one more record follow from those before it |
| GibgoExecution.ConsumeAllSnoc | unit_testing/linux/x11/gibgoGraphics/basic/rotating_cube/gpu_commands.c:327-385 | consuming one more record applies the transition to the state reached so far |
| GibgoExecution.IndexedDrawsSnoc | unit_testing/linux/x11/gibgoGraphics/basic/rotating_cube/gpu_commands.c:366-373 | one more record adds its draw exactly when it is an indexed draw with both buffers set |
| GibgoExecution.PresentsSnoc | unit_testing/linux/x11/gibgoGraphics/basic/rotating_cube/gpu_commands.c:384-387 | one more present record adds one to the wrapped frame count, any other record leaves it |
| GibgoExecution.LastFenceSnoc | unit_testing/linux/x11/gibgoGraphics/basic/rotating_cube/gpu_commands.c:389-394 | the last fence value after one more record is that record's when it is a fence, otherwise the earlier one |
| GibgoExecution.FencedStep | unit_testing/linux/x11/gibgoGraphics/basic/rotating_cube/gpu_commands.c:389-394 | storing fences record by record leaves the fence register holding the last fence value |
| GibgoExecution.ConsumeNext | unit_testing/linux/x11/gibgoGraphics/basic/rotating_cube/gpu_commands.c:317-401 | one turn of the consumer: the head slot's record is executed and the head moves to the next slot |
| GibgoExecution.ExecuteCommandRing | unit_testing/linux/x11/gibgoGraphics/basic/rotating_cube/gpu_commands.c:311-406 | SUCCESS; every record between head and tail is consumed in order from the static state, the head ends at the tail, presents are counted, the last fence is stored, the executed indexed draws are listed and the framebuffer is the image of the last indexed draw when one ran with its depth buffer granted, and as it was otherwise |
| GibgoExecution.IndexedDrawingAsWrittenReadsPastTable | unit_testing/linux/x11/gibgoGraphics/basic/rotating_cube/gpu_commands.c:281-287 | a 39-index draw from 0 visits a triangle at 36 whose reads fall past the 36-entry table |
| GibgoExecution.InTableWhenDrawFits | unit_testing/linux/x11/gibgoGraphics/basic/rotating_cube/gpu_commands.c:281-287 | when first + count is at most 36 the bounded reads are the reads as written and none is skipped for lying past the table |
| GraphicsApi.ConvertResult | unit_testing/linux/x11/gibgoGraphics/basic/rotating_cube/gibgo_graphics.c:26-42 | every internal code maps to exactly one public code: success to success, the three setup failures to INITIALIZATION_FAILED, out-of-memory to OUT_OF_MEMORY, timeout and command failure to DEVICE_LOST, everything else to INVALID_PARAMETER, in both directions |
| GraphicsApi.PresentedListShape | unit_testing/linux/x11/directDrm/basic/rotating_cube/gibgo_graphics.c:217-244 | on an open list with room for two records the submitted list is the frame's records followed by exactly the present and fence records; with no list open nothing is recorded; recording never opens or closes the list |
| GraphicsApi.GraphicsSystem.constructor | unit_testing/linux/x11/directDrm/basic/rotating_cube/gibgo_graphics.c:111-117 | the system record holds the device, context and list, the frame size, frame 0, and is marked initialised |
| GraphicsApi.WaitForFrameCompletion | unit_testing/linux/x11/directDrm/basic/rotating_cube/gibgo_graphics.c:247-256 | on an initialised system, success exactly when the fence register has reached the context's frame fence and DEVICE_LOST otherwise; INVALID_PARAMETER on an uninitialised system |
| GraphicsApi.GetFrameStatistics | unit_testing/linux/x11/directDrm/basic/rotating_cube/gibgo_graphics.c:307-318 | success exactly on an initialised system with both outputs present, and then the device's frame and command counters unchanged; otherwise INVALID_PARAMETER and nothing written |
| DrmGraphics.FinishInitialization | unit_testing/linux/x11/directDrm/basic/rotating_cube/gibgo_graphics.c:103-125 | SUCCESS with a fresh initialised system at frame 0; the face-culling request before any list is open records nothing |
| DrmGraphics.EndFrameAndPresent | unit_testing/linux/x11/directDrm/basic/rotating_cube/gibgo_graphics.c:217-244 | INVALID_PARAMETER with nothing changed on an uninitialised system; otherwise the fence and frame counts move on, a closed list fails the end with nothing submitted, and an open list is submitted and freed with the frame counter moving on exactly when the submission succeeds, a ring timeout being DEVICE_LOST; with a list open the framebuffer is `RenderedFrame` of the submitted list (the frame's records, then present and fence): the scanned clear with the drawn, unculled triangles painted over it in order |
| DrmGraphics.EndAndSubmit | unit_testing/linux/x11/directDrm/basic/rotating_cube/gibgo_graphics.c:229-243 | a closed list fails with INVALID_PARAMETER and nothing submitted; an open list is pushed and freed, the command count and the frame counter move on exactly on success, and whatever the outcome the framebuffer is `RenderedFrame` of the submitted list, as the software rendering at gpu_commands.c:88 runs before the ring push |
| DrmGraphics.SetUniformBufferData | unit_testing/linux/x11/directDrm/basic/rotating_cube/gibgo_graphics.c:332-358 | INVALID_PARAMETER on an uninitialised system or missing data; otherwise a fresh pool buffer is allocated on every call, its failure returned with nothing changed, and on success the uniform command of the new buffer is recorded; with the 256 slots used up the answer is OUT_OF_MEMORY |
| GibgoGraphics.CubeStore.StoredVertices | unit_testing/linux/x11/gibgoGraphics/basic/rotating_cube/gibgo_graphics.c:262-263 | the consumer sees the stored vertex count exactly when a stored copy exists |
| GibgoGraphics.CubeStore.constructor | unit_testing/linux/x11/gibgoGraphics/basic/rotating_cube/gibgo_graphics.c:262-267 | program start: no stored copies, zero counts and matrices, no GPU buffers |
| GibgoGraphics.PresentRecordsConsumed | unit_testing/linux/x11/gibgoGraphics/basic/rotating_cube/gibgo_graphics.c:208-235 | the present and fence records ending a list make its last fence the frame's and add one present, without changing the pipeline state or the draws |
| GibgoGraphics.PresentedFrameCompletes | unit_testing/linux/x11/gibgoGraphics/basic/rotating_cube/gibgo_graphics.c:208-235 | after a frame is consumed in full, the pipeline state and draws are those of the frame's own records |
| GibgoGraphics.PresentedFrameCounted | unit_testing/linux/x11/gibgoGraphics/basic/rotating_cube/gibgo_graphics.c:208-235 | after a frame is consumed in full, its present adds one to the frame count of its own records |
| GibgoGraphics.PresentCountedOnce | unit_testing/linux/x11/gibgoGraphics/basic/rotating_cube/gibgo_graphics.c:208-235 | on a wrapped 64-bit counter the present and fence records add exactly one frame |
| GibgoGraphics.PresentedFrameFenced | unit_testing/linux/x11/gibgoGraphics/basic/rotating_cube/gibgo_graphics.c:208-235 | after a frame is consumed in full, the fence register holds the frame's fence when the device has one |
| GibgoGraphics.FenceWritten | unit_testing/linux/x11/gibgoGraphics/basic/rotating_cube/gpu_commands.c:389-394 | registers whose fence word was last written with a value read that value back |
| GibgoGraphics.EndAndSubmit | unit_testing/linux/x11/gibgoGraphics/basic/rotating_cube/gibgo_graphics.c:220-234 | under the ring condition of SubmitToHardware: a closed list fails with INVALID_PARAMETER and nothing changes; an open list is freed, a timeout is DEVICE_LOST with the list pushed, success delivers the list to the consumer, and the frame counter moves on exactly on success |
| GibgoGraphics.EndFrameAndPresent | unit_testing/linux/x11/gibgoGraphics/basic/rotating_cube/gibgo_graphics.c:208-235 | under the ring condition of SubmitToHardware for the list plus the present and fence records: INVALID_PARAMETER with nothing changed on an uninitialised system; otherwise the fence and frame fence move on, a closed list fails with nothing submitted, an open list is freed and on success delivered to the consumer from the state before the call (the framebuffer then being the image of the last indexed draw when its depth buffer was granted), the frame counter moving on exactly then |
| GibgoGraphics.PresentAndSubmit | unit_testing/linux/x11/gibgoGraphics/basic/rotating_cube/gibgo_graphics.c:213-234 | the initialised path of end-frame-and-present, under the same ring condition and with the same guarantees |
| GibgoGraphics.DeliveredPresentConsumed | unit_testing/linux/x11/gibgoGraphics/basic/rotating_cube/gibgo_graphics.c:208-235 | a frame presented on an open list with room and delivered from an empty ring has the consumer execute exactly the frame's records then present and fence, and the submitted count grows by all of them |
| GibgoGraphics.DeliveredPresentsCounted | unit_testing/linux/x11/gibgoGraphics/basic/rotating_cube/gibgo_graphics.c:208-235 | such a frame moves the frame count on by the presents of everything consumed |
| GibgoGraphics.FrameCountedTwice | unit_testing/linux/x11/gibgoGraphics/basic/rotating_cube/gpu_commands.c:636-658 | a presented frame is counted twice, once when presented and once when its present record is consumed |
| GibgoGraphics.FramesAfterPresent | unit_testing/linux/x11/gibgoGraphics/basic/rotating_cube/gpu_commands.c:386 | the count bumped at present and then by the list's presents is the count plus both, wrapped |
| GibgoGraphics.DeliveredFrameFenced | unit_testing/linux/x11/gibgoGraphics/basic/rotating_cube/gibgo_graphics.c:238-247 | such a frame leaves the fence register at the frame's fence, so waiting for the frame succeeds |
| GibgoGraphics.VertexBufferBytes | unit_testing/linux/x11/gibgoGraphics/basic/rotating_cube/gibgo_graphics.c:293 | the vertex buffer size is the count times 32 bytes, positive for a positive count |
| GibgoGraphics.IndexBufferBytes | unit_testing/linux/x11/gibgoGraphics/basic/rotating_cube/gibgo_graphics.c:440 | the index buffer size is the count times 2 bytes, positive for a positive count |
| GibgoGraphics.AllocatedOnlyOnce | unit_testing/linux/x11/gibgoGraphics/basic/rotating_cube/gibgo_graphics.c:337-343 | once a static buffer has an address every later call keeps it and allocates nothing; a failed first call leaves it unallocated so the next call retries from the same offset |
| GibgoGraphics.FirstAllocationIsBump | unit_testing/linux/x11/gibgoGraphics/basic/rotating_cube/gibgo_graphics.c:292-298 | the first allocation of a static buffer is exactly one bump allocation, staying within VRAM on success |
| GibgoGraphics.AllocateOnce | unit_testing/linux/x11/gibgoGraphics/basic/rotating_cube/gibgo_graphics.c:337-343 | the allocate-once pattern on the device; only the VRAM offset moves |
| GibgoGraphics.AllocateVertexBuffer | unit_testing/linux/x11/gibgoGraphics/basic/rotating_cube/gibgo_graphics.c:291-309 | the vertex buffer is allocated once, and SET_VERTEX_BUFFER is recorded only by the call that allocated it |
| GibgoGraphics.UploadCubeVertices | unit_testing/linux/x11/gibgoGraphics/basic/rotating_cube/gibgo_graphics.c:270-313 | null or empty input or an uninitialised system is INVALID_PARAMETER with nothing changed; a failed host allocation leaves no stored copy but the old count; otherwise the copy and count are replaced and the vertex buffer allocated only on the first successful call |
| GibgoGraphics.RecordMatrices | unit_testing/linux/x11/gibgoGraphics/basic/rotating_cube/gibgo_graphics.c:336-363 | the 192-byte matrix buffer is allocated once, and SET_MATRICES with its address is recorded unless that allocation fails |
| GibgoGraphics.SetMvpMatrices | unit_testing/linux/x11/gibgoGraphics/basic/rotating_cube/gibgo_graphics.c:316-364 | any null matrix or an uninitialised system is INVALID_PARAMETER with nothing changed; otherwise the matrices are stored, the buffer allocated at most once and SET_MATRICES recorded with that address |
| GibgoGraphics.VertexBufferList | unit_testing/linux/x11/gibgoGraphics/basic/rotating_cube/gibgo_graphics.c:429-435 | the vertex buffer record is there exactly when the buffer has an address |
| GibgoGraphics.IndexedDrawListConsumed | unit_testing/linux/x11/gibgoGraphics/basic/rotating_cube/gibgo_graphics.c:429-465 | consumed, the draw list selects the index buffer as 16-bit indices and the vertex buffer when it has one, and its draw runs as (count, 0) exactly when both buffers are then set |
| GibgoGraphics.RecordVertexBuffer | unit_testing/linux/x11/gibgoGraphics/basic/rotating_cube/gibgo_graphics.c:429-435 | the vertex buffer is recorded only when it has an address |
| GibgoGraphics.RecordIndexedDraw | unit_testing/linux/x11/gibgoGraphics/basic/rotating_cube/gibgo_graphics.c:456-463 | SET_INDEX_BUFFER with format 0x1401 then DRAW_INDEXED(count, 0) follow the vertex buffer step |
| GibgoGraphics.RecordCubeDraw | unit_testing/linux/x11/gibgoGraphics/basic/rotating_cube/gibgo_graphics.c:427-465 | the vertex buffer step, the once-allocated index buffer, then unless that allocation fails the index buffer and draw records |
| GibgoGraphics.DrawIndexedCube | unit_testing/linux/x11/gibgoGraphics/basic/rotating_cube/gibgo_graphics.c:400-466 | null or empty indices, an uninitialised system or no uploaded vertices is INVALID_PARAMETER with nothing changed; a failed host allocation leaves no stored indices; otherwise the indices are stored, the index buffer allocated only once and the index-buffer and draw records added unless that allocation fails |
| GibgoGraphics.DepthTestingListConsumed | unit_testing/linux/x11/gibgoGraphics/basic/rotating_cube/gibgo_graphics.c:469-488 | consumed, the depth list sets the depth test to 1 or 0 and the comparison to less-than, leaves the rest alone and draws nothing |
| GibgoGraphics.EnableDepthTesting | unit_testing/linux/x11/gibgoGraphics/basic/rotating_cube/gibgo_graphics.c:469-488 | success exactly on an initialised system, which records ENABLE_DEPTH_TEST(enable) then SET_DEPTH_COMPARE(1); otherwise nothing recorded |
| GibgoGraphics.ClearDepthBuffer3d | unit_testing/linux/x11/gibgoGraphics/basic/rotating_cube/gibgo_graphics.c:491-502 | success exactly on an initialised system, which records the clear of the depth buffer to 1.0; otherwise nothing recorded |
| PciProbe.VendorMapping | unit_testing/linux/x11/directDrm/basic/rotating_cube/gpu_device.c:65-72 | exactly the Intel, AMD and NVIDIA IDs are known vendors, each maps to its vendor and back, and every other ID is unknown |
| PciProbe.IdFieldsRebuild | unit_testing/linux/x11/directDrm/basic/rotating_cube/gpu_device.c:126-127 | the vendor and device ID fields are the two halves of configuration dword 0 and rebuild it |
| PciProbe.BarAddressFields | unit_testing/linux/x11/directDrm/basic/rotating_cube/gpu_device.c:147-161 | the decoded BAR0 base is 16-byte aligned and keeps every address bit of the low dword; a 64-bit BAR contributes the high dword as the upper half, a 32-bit one yields an address below 4 GiB ignoring the high dword |
| PciProbe.BarFlagsIgnored | unit_testing/linux/x11/directDrm/basic/rotating_cube/gpu_device.c:157-160 | the flag bits 0 and 3 of BAR0 do not change the decoded address |
| PciProbe.Probe | unit_testing/linux/x11/directDrm/basic/rotating_cube/gpu_device.c:107-202 | the body of the enumeration loop for one directory entry; ProbeAccepts states when it records a GPU and what the record holds |
| PciProbe.ProbeAccepts | unit_testing/linux/x11/directDrm/basic/rotating_cube/gpu_device.c:107-202 | a directory entry is recorded exactly when it is not hidden, its reads succeed, it is a VGA or 3D display controller of a known vendor and, for a 64-bit BAR, the high dword is readable; the record carries the split IDs, the vendor, the aligned BAR address, the 16 MiB register space and the vendor's defaults |
| PciProbe.FoundPrefix | unit_testing/linux/x11/directDrm/basic/rotating_cube/gpu_device.c:107-203 | the GPUs found in a prefix of the directory are a prefix of those found in all of it |
| PciProbe.EnumerateGpus | unit_testing/linux/x11/directDrm/basic/rotating_cube/gpu_device.c:85-216 | DEVICE_NOT_FOUND when the directory cannot be opened or no GPU is found; otherwise SUCCESS with the first (at most 16) GPUs found, in directory order |
| PpmAnalyzer.LineEnd | unit_testing/linux/x11/directDrm/basic/rotating_cube/public/scripts/analyze_screenshot.py:42 | a line read stops just after the first newline or at the end of the file, and reads something exactly when bytes remain |
| PpmAnalyzer.TrimLeft | unit_testing/linux/x11/directDrm/basic/rotating_cube/public/scripts/analyze_screenshot.py:42 | trimming the left never lengthens the text and leaves it starting with a non-whitespace byte |
| PpmAnalyzer.TrimRight | unit_testing/linux/x11/directDrm/basic/rotating_cube/public/scripts/analyze_screenshot.py:42 | trimming the right never lengthens the text and leaves it ending with a non-whitespace byte |
| PpmAnalyzer.Strip | unit_testing/linux/x11/directDrm/basic/rotating_cube/public/scripts/analyze_screenshot.py:42 | a stripped text is no longer than its input and neither starts nor ends with whitespace |
| PpmAnalyzer.TrimRightPrefix | unit_testing/linux/x11/directDrm/basic/rotating_cube/public/scripts/analyze_screenshot.py:42 | what right trimming keeps is a prefix of its input |
| PpmAnalyzer.WordLength | unit_testing/linux/x11/directDrm/basic/rotating_cube/public/scripts/analyze_screenshot.py:52 | the leading word is at most the text and non-empty when the text starts with a non-whitespace byte |
| PpmAnalyzer.SkipComments | unit_testing/linux/x11/directDrm/basic/rotating_cube/public/scripts/analyze_screenshot.py:46-49 | the comment skip ends at or after where it started and within the file |
| PpmAnalyzer.LoadedShape | unit_testing/linux/x11/directDrm/basic/rotating_cube/public/scripts/analyze_screenshot.py:38-67 | a file that loads has a P6 first line, non-negative dimensions and exactly three bytes per pixel; an ASCII first line other than P6 fails with the magic error |
| PpmAnalyzer.LoadAfterHeader | unit_testing/linux/x11/directDrm/basic/rotating_cube/public/scripts/analyze_screenshot.py:42-52 | once the magic line and the comments are read, the load goes on from the dimension line |
| PpmAnalyzer.DimensionsShape | unit_testing/linux/x11/directDrm/basic/rotating_cube/public/scripts/analyze_screenshot.py:52-67 | from the dimension line on, a load without error sets non-negative dimensions and a payload of their size |
| PpmAnalyzer.PpmImage.constructor | unit_testing/linux/x11/directDrm/basic/rotating_cube/public/scripts/analyze_screenshot.py:31-35 | a new analyser has zero width and height and no pixels |
| PpmAnalyzer.PpmImage.LoadPpm | unit_testing/linux/x11/directDrm/basic/rotating_cube/public/scripts/analyze_screenshot.py:38-67 | the error raised, the dimensions and the pixels assigned are those of the file's load, and a field the load does not reach keeps its value |
| PpmAnalyzer.Open | unit_testing/linux/x11/directDrm/basic/rotating_cube/public/scripts/analyze_screenshot.py:30-36 | opening fails exactly when loading raises, with that error; otherwise a fresh analyser holds the loaded dimensions and pixels |
| PpmAnalyzer.Decimal | unit_testing/linux/x11/directDrm/basic/rotating_cube/public/scripts/analyze_screenshot.py:52 | the decimal form of a number is a non-empty run of digits |
| PpmAnalyzer.Load | unit_testing/linux/x11/directDrm/basic/rotating_cube/public/scripts/analyze_screenshot.py:38-67 | the loader as a function of the file bytes: a header line that does not decode, a first line other than P6, a bad dimension line, a maximum line that is not an integer, a payload of the wrong size or negative dimensions each give their own error; LoadEncoded (round trip), LoadedShape, LoadLayout and PpmAnalyzer.PpmImage.LoadPpm state its properties |
| PpmAnalyzer.LoadDimensions | unit_testing/linux/x11/directDrm/basic/rotating_cube/public/scripts/analyze_screenshot.py:46-52 | the loader after the magic line and the comment lines: the dimension line decides the dimensions or the error; LoadAfterHeader and DimensionsShape state its properties |
| PpmAnalyzer.LoadPayload | unit_testing/linux/x11/directDrm/basic/rotating_cube/public/scripts/analyze_screenshot.py:54-63 | the loader from the maximum line on: a maximum line that does not decode or is not an integer, a payload whose length is not width * height * 3, or negative dimensions are errors, otherwise the payload is the rest of the file; PayloadLine states its property |
| PpmAnalyzer.LoadEncoded | unit_testing/linux/x11/directDrm/basic/rotating_cube/public/scripts/analyze_screenshot.py:38-67 | round trip: whatever the comment lines, a written P6 file with three bytes per pixel loads without error, with the written dimensions and exactly the written payload |
| PpmAnalyzer.LoadLayout | unit_testing/linux/x11/directDrm/basic/rotating_cube/public/scripts/analyze_screenshot.py:51-67 | after the header up to a dimension line, the maximum value line 255 and a payload of the right size complete the load |
| PpmAnalyzer.HeaderOfLayout | unit_testing/linux/x11/directDrm/basic/rotating_cube/public/scripts/analyze_screenshot.py:42-49 | the magic line and the comments of a written header are read up to the dimension line |
| PpmAnalyzer.MagicLine | unit_testing/linux/x11/directDrm/basic/rotating_cube/public/scripts/analyze_screenshot.py:42-44 | a file starting with the line P6 passes the magic check and reading goes on after it |
| PpmAnalyzer.DimensionLine | unit_testing/linux/x11/directDrm/basic/rotating_cube/public/scripts/analyze_screenshot.py:52 | the written dimension line reads back as the dimensions |
| PpmAnalyzer.PairShape | unit_testing/linux/x11/directDrm/basic/rotating_cube/public/scripts/analyze_screenshot.py:52 | two digit words joined by a space form a header data line |
| PpmAnalyzer.PayloadLine | unit_testing/linux/x11/directDrm/basic/rotating_cube/public/scripts/analyze_screenshot.py:54-67 | the maximum value line 255 then a payload of the right size complete the load with that payload |
| PpmAnalyzer.LineAt | unit_testing/linux/x11/directDrm/basic/rotating_cube/public/scripts/analyze_screenshot.py:42 | a line read at a position returns exactly the line and its newline |
| PpmAnalyzer.StripTrailingSpace | unit_testing/linux/x11/directDrm/basic/rotating_cube/public/scripts/analyze_screenshot.py:42 | stripping ignores a trailing whitespace byte such as the newline |
| PpmAnalyzer.TrimLeftAppend | unit_testing/linux/x11/directDrm/basic/rotating_cube/public/scripts/analyze_screenshot.py:42 | trimming the left of a text followed by whitespace keeps that whitespace after the trimmed text |
| PpmAnalyzer.StripUnspaced | unit_testing/linux/x11/directDrm/basic/rotating_cube/public/scripts/analyze_screenshot.py:42 | a text with no whitespace at its ends is its own strip |
| PpmAnalyzer.DigitsAscii | unit_testing/linux/x11/directDrm/basic/rotating_cube/public/scripts/analyze_screenshot.py:42 | decimal digits are ASCII and contain no newline |
| PpmAnalyzer.DigitsUnspaced | unit_testing/linux/x11/directDrm/basic/rotating_cube/public/scripts/analyze_screenshot.py:52 | decimal digits contain no whitespace |
| PpmAnalyzer.SkipCommentBlock | unit_testing/linux/x11/directDrm/basic/rotating_cube/public/scripts/analyze_screenshot.py:46-49 | the comment skip passes over each comment line and stops at the first other line, stripped |
| PpmAnalyzer.LineThen | unit_testing/linux/x11/directDrm/basic/rotating_cube/public/scripts/analyze_screenshot.py:42 | a line followed by a newline is read exactly up to and including that newline |
| PpmAnalyzer.SkipCommentsStep | unit_testing/linux/x11/directDrm/basic/rotating_cube/public/scripts/analyze_screenshot.py:48-49 | a comment line is skipped and any other line ends the skip, stripped |
| PpmAnalyzer.AsciiLine | unit_testing/linux/x11/directDrm/basic/rotating_cube/public/scripts/analyze_screenshot.py:42 | an ASCII line with its newline still decodes |
| PpmAnalyzer.StripKeepsFirst | unit_testing/linux/x11/directDrm/basic/rotating_cube/public/scripts/analyze_screenshot.py:48 | stripping a text that starts with a non-whitespace byte keeps that byte first, so a comment stays a comment |
| PpmAnalyzer.TrimRightKeepsFirst | unit_testing/linux/x11/directDrm/basic/rotating_cube/public/scripts/analyze_screenshot.py:48 | right trimming a text that starts with a non-whitespace byte keeps that byte first |
| PpmAnalyzer.FieldsOfPair | unit_testing/linux/x11/directDrm/basic/rotating_cube/public/scripts/analyze_screenshot.py:52 | two words separated by one space split into exactly those two words |
| PpmAnalyzer.WordPrefix | unit_testing/linux/x11/directDrm/basic/rotating_cube/public/scripts/analyze_screenshot.py:52 | a word without whitespace followed by whitespace is read as that word |
| PpmAnalyzer.DecimalRoundTrip | unit_testing/linux/x11/directDrm/basic/rotating_cube/public/scripts/analyze_screenshot.py:52 | converting the decimal digits of a natural number back gives the number |
| PpmAnalyzer.DecimalValue | unit_testing/linux/x11/directDrm/basic/rotating_cube/public/scripts/analyze_screenshot.py:52 | the digits of a natural number have that value |
| PpmAnalyzer.CountsPartition | unit_testing/linux/x11/directDrm/basic/rotating_cube/public/scripts/analyze_screenshot.py:73-80 | the black and the coloured pixels together are all the pixels counted |
| PpmAnalyzer.NoColoredAllBlack | unit_testing/linux/x11/directDrm/basic/rotating_cube/public/scripts/analyze_screenshot.py:73-80 | no pixel is coloured exactly when all of them are black |
| PpmAnalyzer.BoxOfTight | unit_testing/linux/x11/directDrm/basic/rotating_cube/public/scripts/analyze_screenshot.py:83-94 | the box over the pixels exists exactly when one is coloured, holds every coloured one and touches a coloured one on each edge |
| PpmAnalyzer.RowMajor | unit_testing/linux/x11/directDrm/basic/rotating_cube/public/scripts/analyze_screenshot.py:85-87 | row-major pixel y * width + x lies at column x and row y |
| PpmAnalyzer.InImage | unit_testing/linux/x11/directDrm/basic/rotating_cube/public/scripts/analyze_screenshot.py:85-87 | the pixel at a column and row inside the image lies inside its payload |
| PpmAnalyzer.AnalyzeColors | unit_testing/linux/x11/directDrm/basic/rotating_cube/public/scripts/analyze_screenshot.py:69-94 | the colour analysis of a width x height image: totals, black and coloured counts and the bounding box of the coloured pixels; ColorCountsAddUp and BoundingBoxTight state its properties |
| PpmAnalyzer.ColorCountsAddUp | unit_testing/linux/x11/directDrm/basic/rotating_cube/public/scripts/analyze_screenshot.py:73-80 | black plus coloured pixels equal the total, width times height, and the black count is the number of black pixels |
| PpmAnalyzer.BoundingBoxTight | unit_testing/linux/x11/directDrm/basic/rotating_cube/public/scripts/analyze_screenshot.py:83-94 | the bounding box exists exactly when some pixel is coloured; then every coloured pixel lies inside it, each edge touches a coloured pixel, and its width and height are between 1 and the image's |
| PpmAnalyzer.BoxHoldsColored | unit_testing/linux/x11/directDrm/basic/rotating_cube/public/scripts/analyze_screenshot.py:85-94 | every coloured pixel, by column and row, lies in the box |
| PpmAnalyzer.ColoredPixelInBox | unit_testing/linux/x11/directDrm/basic/rotating_cube/public/scripts/analyze_screenshot.py:85-94 | a coloured pixel at a column and row lies in any box holding the coloured pixels by index |
| PpmAnalyzer.BoxInsideImage | unit_testing/linux/x11/directDrm/basic/rotating_cube/public/scripts/analyze_screenshot.py:89-94 | the box is at least one pixel and at most the image in each direction |
| PpmAnalyzer.BelowRows | unit_testing/linux/x11/directDrm/basic/rotating_cube/public/scripts/analyze_screenshot.py:85-87 | a pixel index inside the image lies in one of its rows |
| PpmAnalyzer.Diagnose | unit_testing/linux/x11/directDrm/basic/rotating_cube/public/scripts/analyze_screenshot.py:207-217 | the verdict chain of the analysis printout, in the source's order; BlackVerdictExactly states its properties |
| PpmAnalyzer.BlackVerdictExactly | unit_testing/linux/x11/directDrm/basic/rotating_cube/public/scripts/analyze_screenshot.py:207-217 | the completely-black verdict is given exactly when every pixel is black, whatever the shape analysis found; any other verdict comes with a bounding box, and the stretching, few-edges and reasonable verdicts only with a fill of at least one percent |
| PpmAnalyzer.AllBlackAtExactly | unit_testing/linux/x11/directDrm/basic/rotating_cube/public/scripts/analyze_screenshot.py:74-75 | no pixel is coloured exactly when the pixel at every column and row is black |
| PpmAnalyzer.BlackByIndex | unit_testing/linux/x11/directDrm/basic/rotating_cube/public/scripts/analyze_screenshot.py:74-75 | pixel i is the one at column i mod width and row i div width |

## Left out

- Register/framebuffer aliasing in `directDrm`: `unit_testing/linux/x11/directDrm/basic/rotating_cube/gpu_device.c:332` makes the register space the DRM framebuffer. The ring, head, tail and fence registers are therefore pixels, and a clear overwrites them. The model keeps a separate register array and pixel array; the aliasing is a known discrepancy, not replicated.
- Null-pointer guards on `device`, `context`, `system` and output pointers are folded into the guards that sit in the same `if` (an uninitialised system, a closed list). The model's objects are never null. The SPIR-V data pointers of `gibgo_load_shaders` are the `spirvGiven` input of the three `LoadShaders` members.
- The fallback of the `gibgoGraphics` indexed drawing to the register space when the framebuffer mapping is null (`unit_testing/linux/x11/gibgoGraphics/basic/rotating_cube/gpu_commands.c:195-203`) is not modelled: the model's framebuffer always exists.
- DrmMemory.AllocateResult: the aligned size and the pool test are taken on exact integers, not on `u64`. The requests from 2^64 - 255 up, which the C rounds to 0 and accepts, and the wrap of `pool_used + aligned_size` are stated only as written, in `GpuAlignment.AlignAsWrittenWrapsToZero`, `GpuAlignment.BumpAsWrittenReusesAddress` and `DrmMemory.EmptyPoolAsWrittenAccepts` (Findings row 4). The same holds for `DrmMemory.Allocate`.
- GibgoMemory.AllocateResult: the same exact-integer choice; the `u64` wrap of `vram_allocation_offset + aligned_size` is the same finding. The same holds for `GibgoMemory.Allocate`.
- DrmMemory.EmptyPoolRefuses: holds for the exact-integer allocator only; as written, the sizes from 2^64 - 255 up pass the empty pool's capacity test (`DrmMemory.EmptyPoolAsWrittenAccepts`).
- The floating-point pipeline is not modelled: vertex transformation, barycentric tests, colour interpolation, the back-face test, the depth test, the rotation from `sinf`/`cosf` and the float arithmetic of `math.h`. Where the integer skeleton needs their results (the triangle's validity, its facing, `look_at`, `perspective`, `mat4f_multiply`), they are parameters or uninterpreted terms of the `Matrix` datatype. Which pixels a rasterised triangle writes, and with which colour, is the `Shader` parameter: the model fixes only that the drawn triangles write over the cleared image one after the other, in the source's order.
- Rasteriser.Shader: one shader holds for a whole submission (`CubeCommands.SubmitToHardware`, `GibgoCommands.SubmitToHardware` and the calls above them). The frame count and the stored vertex data that the source's rasterisers read do not change during one submission, so this loses nothing the model states; which pixels end up which colour is not stated.
- `animation.h` (wall-clock time and a float angle) is not part of this model.
- The DRM, sysfs and ioctl calls, `opendir`, `read_pci_config`, `mmap`/`munmap` and memory barriers become boolean or optional inputs of the operations that use them. The DRM dumb-buffer map in the `gibgoGraphics` `gpu_memory.c` is modelled only by its range check, because each call creates a fresh mapping.
- Host `malloc`/`calloc` outcomes are inputs of the operations that allocate: `hostMemory` (command buffers, contexts, vertex copies, the DRM-buffer record through the `DumbBuffer` outcome of the `gibgoGraphics` map), `deviceMemory` and `ringMemory` (device creation) and `depthMemory` (the depth buffer of an indexed draw). The `OUT_OF_MEMORY` path of the PCI enumeration's allocation and the `device_name` string are not modelled.
- GibgoExecution.ExecuteCommandRing: one `depthMemory` outcome holds for every indexed draw of one drain of the ring (and so for `GibgoCommands.SubmitToHardware` and the facade calls above it); the source allocates once per draw, and a drain in which some but not all of these allocations fail is not modelled.
- GibgoCommands.SubmitToHardware: its precondition `HeadStaysInRing` excludes exactly the submissions after which the source's consumer starts from a head register value that names no ring slot and reads outside `command_buffer` (`CommandRingModel.HeadStaysInRingExactly`); those reads are not modelled, and the same holds for `SubmitCommands`, `GibgoGraphics.EndAndSubmit`, `EndFrameAndPresent` and `PresentAndSubmit`.
- The data copied by `memcpy` (vertex, index and matrix contents) is not held; only the allocations, addresses and counts are.
- The `directDrm` memory pool is initialised in no visible source file, so the device is created with a pool of size 0 (`DrmMemory.EmptyPoolRefuses`: every nonzero request below 2^64 - 255 is refused). The allocator itself is modelled for any pool.
- The `directDrm` `gibgo_initialize_graphics` is modelled only from the point where the device and context exist (the final culling call and the system fields). With a pool of size 0, a chained initialisation would always stop at context creation.
- `usleep` busy-waits are bounded counters (the 1000000-step full-ring wait, the fence poll limit). The GPU head register is an input that stays constant during one submit; there is no concurrency in the source.
- Logging macros, the `*_result_string` tables, `destroy_device`, the `gibgo_debug_*` dumps, the unused `render_cube_to_framebuffer`, the main programs and the Vulkan demo programs are left out.
- `analyze_screenshot.py`: `detect_shapes`, `save_visualization` and matplotlib output, `main` and file-path resolution, the maximum-value warning, and the floating-point channel means, standard deviations, gradients and aspect-ratio classification are left out. The fill percentage is taken in exact rational arithmetic rather than as a float.
- The `_Static_assert` size and alignment checks of the headers are C layout facts with nothing to state about values.

## Findings

| source | as written | input that shows it | evidently intended | confidence | as-written member | corrected member |
|---|---|---|---|---|---|---|
| unit_testing/linux/x11/directDrm/basic/rotating_cube/gpu_device.c:376-378 | the ring of capacity 1024 is allocated as `capacity * sizeof(u32)` bytes, that is 1024 words, while producers write words `tail*4 .. tail*4+3` | after 256 pushed records the 257th record starts at word 1024, past the end of the buffer | a buffer of four words per slot | not executed | GpuDeviceInit.RingAllocationAsWrittenOverruns | CommandRingModel.CommandRing.constructor |
| unit_testing/linux/x11/gibgoGraphics/basic/rotating_cube/gpu_commands.c:281-287 | indexed drawing reads `cube_indices[first_index+i+k]` with no bound, and `draw_indexed_cube` accepts any count | count 39 with first index 0 reads entries 36 to 38 of the 36-entry table | only triangles lying wholly inside the index table are drawn | not executed | GibgoExecution.IndexedDrawingAsWrittenReadsPastTable | GibgoExecution.DrawIndexedTriangles |
| unit_testing/linux/x11/directDrm/basic/rotating_cube/gpu_commands.c:769-776 | the loop test `i + 2 < vertex_count` is computed in `u32` and wraps | vertex count 0xFFFFFFFF with first vertex 2: at i = 0xFFFFFFFE the sum wraps to 0 and vertex 0xFFFFFFFF is read | only triangles whose three vertices are below the vertex count are visited | not executed | CubeExecution.TriangleLoopAsWrittenReadsPastCount | CubeExecution.VisitTriangles |
| unit_testing/linux/x11/directDrm/basic/rotating_cube/gpu_memory.c:35-38 | the aligned size and the bump offset wrap on `u64`, so the capacity test can pass after a wrap (the same `vram_allocation_offset + aligned_size` wrap is in `gibgoGraphics` gpu_memory.c:39) | a pool of 0x4000_0000 bytes: allocate 256, then 2^64 - 256, then 256; the third allocation returns the first one's address | allocations never overlap | not executed | GpuAlignment.BumpAsWrittenReusesAddress | GpuAlignment.BumpRangesDisjoint |
| unit_testing/linux/x11/gibgoGraphics/basic/rotating_cube/gpu_memory.c:131-132 | the range check `address + size` wraps on `u64` | address 0x1000 and size 2^64 - 0x1000 against an allocation of 0x1000 bytes at 0x1000 is accepted | only ranges inside the allocation are accepted | not executed | GibgoMemory.RangeAsWrittenAcceptsWrapped | GibgoMemory.RangeCheckMeaning |
