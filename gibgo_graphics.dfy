// The `gibgoGraphics` rotating-cube facade (`gibgo_graphics.c`): presenting
// a frame through the ring and its consumer, and the cube entry points that
// keep the uploaded vertices, indices and matrices in module globals and
// allocate their GPU buffers once, in function statics.
module GibgoGraphics {
  import opened MachineWords
  import opened GpuCore
  import opened CommandRingModel
  import opened CommandList
  import opened GpuDevices
  import opened RingSubmission
  import opened FrameRecording
  import opened GibgoMath
  import opened GpuAlignment
  import opened GibgoMemory
  import opened GibgoExecution
  import opened Rasteriser
  import opened GibgoCommands
  import opened GraphicsApi

  /** `GibgoCubeVertex`: a position and a colour, 32 bytes with the padding. */
  datatype CubeVertex = CubeVertex(position: Vec3f, color: Vec3f)

  const CUBE_VERTEX_BYTES: nat := 32
  /** `sizeof(TransformMatrices)`: model, view and projection, 64 bytes each. */
  const TRANSFORM_MATRICES_BYTES: u64 := 192
  /** `sizeof(u16)`, the size of one index. */
  const INDEX_BYTES: nat := 2
  /** The index format recorded with the index buffer (`GL_UNSIGNED_SHORT`). */
  const INDEX_FORMAT_U16: u32 := 0x1401
  /** The depth comparison `enable_depth_testing` selects (less than). */
  const DEPTH_LESS: u32 := 1

  /** A zero-initialised `Mat4f` static. */
  const ZERO_MATRIX: Mat4f :=
    Mat4f(Vec4f(F32_ZERO, F32_ZERO, F32_ZERO, F32_ZERO), Vec4f(F32_ZERO, F32_ZERO, F32_ZERO, F32_ZERO),
          Vec4f(F32_ZERO, F32_ZERO, F32_ZERO, F32_ZERO), Vec4f(F32_ZERO, F32_ZERO, F32_ZERO, F32_ZERO))

  /**
   * The globals and function statics of the facade: the stored copies of
   * the cube's vertices and indices (`None` for a null pointer) with their
   * counts, the stored matrices, and the three GPU buffer addresses, 0 until
   * allocated.
   */
  class CubeStore {
    var cubeVertices: Option<seq<CubeVertex>>
    var vertexCount: u32
    var cubeIndices: Option<seq<u16>>
    var indexCount: u32
    var model: Mat4f
    var view: Mat4f
    var projection: Mat4f
    var vertexBufferAddress: u64
    var matrixBufferAddress: u64
    var indexBufferAddress: u64

    /** What the consumer's indexed drawing sees: the stored vertex count, `None` for a null pointer. */
    function StoredVertices(): (v: Option<u32>)
      reads this
      ensures v.Some? <==> cubeVertices.Some?
      ensures v.Some? ==> v.value == vertexCount
    {
      if cubeVertices.Some? then Some(vertexCount) else None
    }

    /** Program start: null pointers, zero counts, zero matrices, no buffers. */
    constructor ()
      ensures cubeVertices == None && vertexCount == 0 && cubeIndices == None && indexCount == 0
      ensures model == ZERO_MATRIX && view == ZERO_MATRIX && projection == ZERO_MATRIX
      ensures vertexBufferAddress == 0 && matrixBufferAddress == 0 && indexBufferAddress == 0
    {
      cubeVertices := None;
      vertexCount := 0;
      cubeIndices := None;
      indexCount := 0;
      model, view, projection := ZERO_MATRIX, ZERO_MATRIX, ZERO_MATRIX;
      vertexBufferAddress, matrixBufferAddress, indexBufferAddress := 0, 0, 0;
    }
  }

  // ---------------------------------------------------------------------------
  // Presenting a frame
  // ---------------------------------------------------------------------------

  /**
   * The present and fence records at the end of a list: the last fence is
   * the frame's, the present counts once, and neither changes the pipeline
   * state or draws.
   */
  lemma PresentRecordsConsumed(s: PipelineState, prefix: seq<Command>, framebuffer: u64, format: u32, fence: u32)
    ensures var cmds := prefix + PresentCommands(BASIC_COMMANDS, framebuffer, format, fence);
      LastFence(cmds) == Some(fence) && Presents(cmds) == Presents(prefix) + 1 &&
      ConsumeAll(s, cmds) == ConsumeAll(s, prefix) && IndexedDraws(s, cmds) == IndexedDraws(s, prefix)
  {
    var present := Command(BASIC_COMMANDS.present, AddressLow(framebuffer), AddressHigh(framebuffer), format);
    var cmds := prefix + PresentCommands(BASIC_COMMANDS, framebuffer, format, fence);
    assert cmds[..|cmds| - 1] == prefix + [present];
    assert (prefix + [present])[..|prefix|] == prefix;
  }

  /**
   * A frame consumed in full, ending with the present and fence records:
   * the pipeline state and the draws are those of the frame's own records.
   */
  lemma PresentedFrameCompletes(device: GpuDevice, state: GpuState, prefix: seq<Command>, draws: seq<(u32, u32)>,
                                framebuffer: u64, format: u32, fence: u32, snapshot0: PipelineState,
                                frames0: u64, regs0: seq<u32>, fb0: seq<u32>, depthMemory: bool, stored: Option<u32>,
                                shade: Shader)
    requires ConsumedSoFar(device, state, draws, prefix + PresentCommands(BASIC_COMMANDS, framebuffer, format, fence),
                           snapshot0, frames0, regs0, fb0, depthMemory, stored, shade)
    ensures state.Snapshot() == ConsumeAll(snapshot0, prefix)
    ensures draws == IndexedDraws(snapshot0, prefix)
  {
    PresentRecordsConsumed(snapshot0, prefix, framebuffer, format, fence);
  }

  /**
   * A frame consumed in full, ending with the present and fence records:
   * the present record is counted once more than the frame's own records.
   */
  lemma PresentedFrameCounted(device: GpuDevice, state: GpuState, prefix: seq<Command>, draws: seq<(u32, u32)>,
                              framebuffer: u64, format: u32, fence: u32, snapshot0: PipelineState,
                              frames0: u64, regs0: seq<u32>, fb0: seq<u32>, depthMemory: bool, stored: Option<u32>,
                              shade: Shader)
    requires ConsumedSoFar(device, state, draws, prefix + PresentCommands(BASIC_COMMANDS, framebuffer, format, fence),
                           snapshot0, frames0, regs0, fb0, depthMemory, stored, shade)
    ensures device.framesRendered == Wrap64(frames0 + Presents(prefix) + 1)
  {
    PresentCountedOnce(frames0, prefix, framebuffer, format, fence);
  }

  /** The frame count after the present and fence records, on a wrapped counter. */
  lemma PresentCountedOnce(frames0: u64, prefix: seq<Command>, framebuffer: u64, format: u32, fence: u32)
    ensures Wrap64(frames0 + Presents(prefix + PresentCommands(BASIC_COMMANDS, framebuffer, format, fence))) ==
            Wrap64(frames0 + Presents(prefix) + 1)
  {
    PresentRecordsConsumed(ZERO_STATE, prefix, framebuffer, format, fence);
  }

  /**
   * A frame consumed in full, ending with the present and fence records:
   * the fence register holds the frame's fence, when the device has one.
   */
  lemma PresentedFrameFenced(device: GpuDevice, state: GpuState, prefix: seq<Command>, draws: seq<(u32, u32)>,
                             framebuffer: u64, format: u32, fence: u32, snapshot0: PipelineState,
                             frames0: u64, regs0: seq<u32>, fb0: seq<u32>, depthMemory: bool, stored: Option<u32>,
                             shade: Shader)
    requires ConsumedSoFar(device, state, draws, prefix + PresentCommands(BASIC_COMMANDS, framebuffer, format, fence),
                           snapshot0, frames0, regs0, fb0, depthMemory, stored, shade)
    ensures device.hasFenceRegister ==> device.FenceValue() == fence
  {
    PresentRecordsConsumed(snapshot0, prefix, framebuffer, format, fence);
    FenceWritten(device, regs0, fence);
  }

  /** Registers whose fence word was last written with `fence` read back `fence`. */
  lemma FenceWritten(device: GpuDevice, regs0: seq<u32>, fence: u32)
    requires device.FenceWord() < device.registers.Length == |regs0|
    requires device.registers[..] == Fenced(regs0, device.FenceWord(), device.hasFenceRegister, Some(fence))
    ensures device.hasFenceRegister ==> device.FenceValue() == fence
  {
    if device.hasFenceRegister {
      assert device.registers[device.FenceWord()] == device.registers[..][device.FenceWord()];
    }
  }

  /**
   * The rest of `gibgo_end_frame_and_present` once the frame is presented:
   * ending a list that is not open fails with `INVALID_PARAMETER` and
   * nothing is submitted; an open list is submitted, consumed and freed, and
   * the frame counter moves on exactly when the submission succeeded, a ring
   * timeout being a lost device.
   */
  method EndAndSubmit(system: GraphicsSystem, state: GpuState, stored: Option<u32>, depthMemory: bool, shade: Shader,
                      ghost cmds: seq<Command>,
                      ghost head0: u32, ghost tail0: u32, ghost gpuHead0: u32, ghost buf0: seq<u32>,
                      ghost regs0: seq<u32>, ghost snapshot0: PipelineState, ghost frames0: u64,
                      ghost fb0: seq<u32>, ghost submitted0: u64)
    returns (r: ApiResult, draws: seq<(u32, u32)>)
    requires system.Wired() && system.device.Valid()
    requires system.device.ring.head < system.device.ring.capacity
    requires HeadStaysInRing(system.device.ring.head, system.device.ring.tail, system.device.ring.capacity,
                             GpuHead(system.device), |cmds|)
    requires cmds == system.recorder.commands
    requires head0 == system.device.ring.head && tail0 == system.device.ring.tail
    requires gpuHead0 == GpuHead(system.device) && buf0 == system.device.ring.buffer[..]
    requires regs0 == system.device.registers[..] && snapshot0 == state.Snapshot()
    requires frames0 == system.device.framesRendered && fb0 == system.device.framebuffer[..]
    requires submitted0 == system.device.commandsSubmitted
    modifies system, system.device, system.device.ring, system.device.ring.buffer, system.device.registers,
             system.device.framebuffer, state, system.recorder
    ensures system.device.fenceCounter == old(system.device.fenceCounter)
    ensures system.device.ring.capacity == old(system.device.ring.capacity)
    ensures !old(system.recorder.open) ==>
      r == ApiInvalidParameter && draws == [] && system.currentFrame == old(system.currentFrame) &&
      system.recorder.State() == old(system.recorder.State()) &&
      unchanged(system.device, system.device.ring, system.device.registers, system.device.framebuffer, state) &&
      unchanged(old(system.device.ring.buffer))
    ensures old(system.recorder.open) ==>
      (r == ApiSuccess || r == DeviceLost) && system.recorder.State() == Recording(false, [], 0) &&
      system.currentFrame == (if r == ApiSuccess then Wrap32(old(system.currentFrame) + 1) else old(system.currentFrame))
    ensures old(system.recorder.open) && r == DeviceLost ==>
      Pushed(system.device, cmds, GpuTimeout) && draws == [] &&
      unchanged(system.device, state, system.device.framebuffer)
    ensures old(system.recorder.open) && r == ApiSuccess ==>
      Delivered(system.device, state, cmds, draws, head0, tail0, gpuHead0, buf0, regs0, snapshot0, frames0, fb0,
                submitted0, depthMemory, stored, shade)
  {
    var result := EndCommands(system.recorder);
    if result != Success {
      return ConvertResult(result), [];
    }
    result, draws := SubmitCommands(system.device, state, system.recorder, stored, depthMemory, shade);
    if result != Success {
      return ConvertResult(result), draws;
    }
    system.currentFrame := Wrap32(system.currentFrame + 1);
    return ApiSuccess, draws;
  }

  /**
   * What `gibgo_end_frame_and_present` does to an initialised system: the
   * present and fence records are added (the fence counter, the frame fence
   * and the frame count move on whether or not they were recorded). With no
   * list open the end fails with `INVALID_PARAMETER` and nothing is
   * submitted. An open list is submitted and freed; a ring timeout is a
   * lost device with the list pushed as far as it got, and the frame
   * counter moves on exactly when the submission succeeded. A successful
   * submission delivers the presented list against the state before the
   * call, the frame count the consumer starts from being the one the
   * present bumped; `DeliveredPresentConsumed`, `DeliveredPresentsCounted`
   * and `DeliveredFrameFenced` say what such a frame leaves behind.
   */
  twostate predicate FramePresented(system: GraphicsSystem, state: GpuState, r: ApiResult, new draws: seq<(u32, u32)>,
                                    depthMemory: bool, stored: Option<u32>, shade: Shader)
    requires old(system.Wired() && system.device.Valid())
    reads system, system.context, system.device, system.device.ring, system.device.ring.buffer,
          system.device.registers, system.device.framebuffer, state, system.recorder
  {
    system.device.fenceCounter == Wrap32(old(system.device.fenceCounter) + 1) &&
    system.context.frameFence == system.device.fenceCounter &&
    system.currentFrame == (if r == ApiSuccess then Wrap32(old(system.currentFrame) + 1) else old(system.currentFrame)) &&
    (r != ApiSuccess ==> r == (if old(system.recorder.open) then DeviceLost else ApiInvalidParameter)) &&
    (!old(system.recorder.open) ==>
       system.recorder.State() == old(system.recorder.State()) &&
       system.device.framesRendered == Wrap64(old(system.device.framesRendered) + 1) &&
       system.device.commandsSubmitted == old(system.device.commandsSubmitted) &&
       unchanged(system.device.ring, system.device.registers, system.device.framebuffer, state) &&
       unchanged(old(system.device.ring.buffer))) &&
    (old(system.recorder.open) ==>
       var cmds := PresentedList(old(system.recorder.State()), BASIC_COMMANDS, system.context.framebufferAddress,
                                 system.context.framebufferFormat, system.context.frameFence);
       system.recorder.State() == Recording(false, [], 0) &&
       (r == DeviceLost ==> Pushed(system.device, cmds, GpuTimeout)) &&
       (r == ApiSuccess ==>
          Delivered(system.device, state, cmds, draws, old(system.device.ring.head), old(system.device.ring.tail),
                    old(GpuHead(system.device)), old(system.device.ring.buffer[..]), old(system.device.registers[..]),
                    old(state.Snapshot()), Wrap64(old(system.device.framesRendered) + 1),
                    old(system.device.framebuffer[..]), old(system.device.commandsSubmitted), depthMemory, stored, shade)))
  }

  /**
   * `gibgo_end_frame_and_present`: an uninitialised system is an invalid
   * parameter and nothing changes; otherwise the frame is presented,
   * ended and submitted as `FramePresented` says.
   */
  method EndFrameAndPresent(system: GraphicsSystem, state: GpuState, store: CubeStore, depthMemory: bool, shade: Shader)
    returns (r: ApiResult, draws: seq<(u32, u32)>)
    requires system.Wired() && system.device.Valid()
    requires system.device.ring.head < system.device.ring.capacity
    requires HeadStaysInRing(system.device.ring.head, system.device.ring.tail, system.device.ring.capacity,
                             GpuHead(system.device), |system.recorder.commands| + 2)
    modifies system, system.context, system.device, system.device.ring, system.device.ring.buffer,
             system.device.registers, system.device.framebuffer, state, system.recorder
    ensures !old(system.isInitialized) ==>
      r == ApiInvalidParameter && draws == [] &&
      unchanged(system, system.context, system.device, system.recorder, system.device.ring, state) &&
      unchanged(system.device.framebuffer, system.device.registers, system.device.ring.buffer)
    ensures old(system.isInitialized) ==> FramePresented(system, state, r, draws, depthMemory, store.StoredVertices(), shade)
  {
    if !system.isInitialized {
      return ApiInvalidParameter, [];
    }
    r, draws := PresentAndSubmit(system, state, store.StoredVertices(), depthMemory, shade);
  }

  /** The initialised path of `gibgo_end_frame_and_present`, as `FramePresented` says. */
  method PresentAndSubmit(system: GraphicsSystem, state: GpuState, stored: Option<u32>, depthMemory: bool, shade: Shader)
    returns (r: ApiResult, draws: seq<(u32, u32)>)
    requires system.Wired() && system.device.Valid()
    requires system.device.ring.head < system.device.ring.capacity
    requires HeadStaysInRing(system.device.ring.head, system.device.ring.tail, system.device.ring.capacity,
                             GpuHead(system.device), |system.recorder.commands| + 2)
    modifies system, system.context, system.device, system.device.ring, system.device.ring.buffer,
             system.device.registers, system.device.framebuffer, state, system.recorder
    ensures FramePresented(system, state, r, draws, depthMemory, stored, shade)
  {
    var context := system.context;
    var device := system.device;
    var recorder := system.recorder;
    ghost var open := recorder.open;
    PresentedListShape(recorder.State(), BASIC_COMMANDS, context.framebufferAddress, context.framebufferFormat,
                       Wrap32(device.fenceCounter + 1));
    // Presenting only records and counts; it cannot fail.
    ghost var before := recorder.State();
    var _ := PresentFrame(BASIC_COMMANDS, context, recorder);
    assert recorder.open == open;
    AddedAllGrowth(before, PresentCommands(BASIC_COMMANDS, context.framebufferAddress, context.framebufferFormat,
                                           context.frameFence));
    ghost var cmds := recorder.commands;
    ghost var frames0 := device.framesRendered;
    r, draws := EndAndSubmit(system, state, stored, depthMemory, shade, cmds, old(device.ring.head), old(device.ring.tail),
                             old(GpuHead(device)), old(device.ring.buffer[..]), old(device.registers[..]),
                             old(state.Snapshot()), frames0, old(device.framebuffer[..]),
                             old(device.commandsSubmitted));
  }


  /**
   * A frame presented on an open list with room for both records and
   * submitted successfully from an empty ring: the consumer has executed
   * exactly the frame's own records followed by the present and fence
   * records, and the submitted count grew by all of them.
   */
  lemma DeliveredPresentConsumed(device: GpuDevice, state: GpuState, before: Recording, framebuffer: u64,
                                 format: u32, fence: u32, draws: seq<(u32, u32)>, head0: u32, gpuHead0: u32,
                                 buf0: seq<u32>, regs0: seq<u32>, snapshot0: PipelineState, frames0: u64,
                                 fb0: seq<u32>, submitted0: u64, depthMemory: bool, stored: Option<u32>, shade: Shader)
    requires before.open && |before.commands| + 2 <= before.maxCommands
    requires Delivered(device, state, PresentedList(before, BASIC_COMMANDS, framebuffer, format, fence), draws,
                       head0, head0, gpuHead0, buf0, regs0, snapshot0, frames0, fb0, submitted0, depthMemory, stored, shade)
    requires before.maxCommands as int + 1 < device.ring.capacity
    ensures ConsumedSoFar(device, state, draws, before.commands + PresentCommands(BASIC_COMMANDS, framebuffer, format, fence),
                          snapshot0, frames0, PushedRegisters(regs0, device.CommandWord(), device.ring.tail), fb0,
                          depthMemory, stored, shade)
    ensures device.commandsSubmitted == Wrap64(submitted0 + |before.commands| + 2)
  {
    PresentedListShape(before, BASIC_COMMANDS, framebuffer, format, fence);
    var cmds := PresentedList(before, BASIC_COMMANDS, framebuffer, format, fence);
    assert cmds == before.commands + PresentCommands(BASIC_COMMANDS, framebuffer, format, fence);
    DeliveredFromEmptyRing(device, state, cmds, draws, head0, gpuHead0, buf0, regs0, snapshot0, frames0, fb0,
                           submitted0, depthMemory, stored, shade);
  }

  /**
   * A frame presented on an open list with room for both records and
   * submitted successfully from an empty ring: the frame count moved on by
   * the presents of everything consumed.
   */
  lemma DeliveredPresentsCounted(device: GpuDevice, state: GpuState, before: Recording, framebuffer: u64,
                                 format: u32, fence: u32, draws: seq<(u32, u32)>, head0: u32, gpuHead0: u32,
                                 buf0: seq<u32>, regs0: seq<u32>, snapshot0: PipelineState, frames0: u64,
                                 fb0: seq<u32>, submitted0: u64, depthMemory: bool, stored: Option<u32>, shade: Shader)
    requires before.open && |before.commands| + 2 <= before.maxCommands
    requires Delivered(device, state, PresentedList(before, BASIC_COMMANDS, framebuffer, format, fence), draws,
                       head0, head0, gpuHead0, buf0, regs0, snapshot0, frames0, fb0, submitted0, depthMemory, stored, shade)
    requires before.maxCommands as int + 1 < device.ring.capacity
    ensures device.framesRendered ==
      Wrap64(frames0 + Presents(before.commands + PresentCommands(BASIC_COMMANDS, framebuffer, format, fence)))
  {
    DeliveredPresentConsumed(device, state, before, framebuffer, format, fence, draws, head0, gpuHead0, buf0, regs0,
                             snapshot0, frames0, fb0, submitted0, depthMemory, stored, shade);
  }

  /**
   * A frame is counted twice: once when it is presented (the counter then
   * reads `frames + 1`) and once when its present record is consumed after
   * the records before it. Together with `DeliveredPresentsCounted` this
   * gives the count after a presented frame is delivered.
   */
  lemma FrameCountedTwice(framesRendered: u64, frames: u64, prefix: seq<Command>, framebuffer: u64,
                          format: u32, fence: u32)
    requires framesRendered ==
      Wrap64(Wrap64(frames + 1) + Presents(prefix + PresentCommands(BASIC_COMMANDS, framebuffer, format, fence)))
    ensures framesRendered == Wrap64(frames + Presents(prefix) + 2)
  {
    PresentCountedOnce(Wrap64(frames + 1), prefix, framebuffer, format, fence);
    FramesAfterPresent(frames, Presents(prefix));
  }

  /** The present counted before the list, then the list's presents, counted on a wrapped counter. */
  lemma FramesAfterPresent(frames: u64, presents: nat)
    ensures Wrap64(Wrap64(frames + 1) + presents + 1) == Wrap64(frames + presents + 2)
  {
    Wrap64Add(frames + 1, presents + 1);
    assert Wrap64(frames + 1) + presents + 1 == Wrap64(frames + 1) + (presents + 1);
    assert frames + 1 + (presents + 1) == frames + presents + 2;
  }

  /** Adding to a wrapped `u64` counter is adding to the exact value, wrapped. */
  lemma Wrap64Add(x: int, n: nat)
    ensures Wrap64(Wrap64(x) + n) == Wrap64(x + n)
  {
    var q := x / TWO_64;
    assert x == q * TWO_64 + Wrap64(x);
    assert x + n == q * TWO_64 + (Wrap64(x) + n);
  }

  /**
   * A frame presented on an open list with room for both records and
   * submitted successfully from an empty ring: the fence register then
   * holds the frame's fence (when the device has one), so waiting for the
   * frame succeeds.
   */
  lemma DeliveredFrameFenced(device: GpuDevice, state: GpuState, before: Recording, framebuffer: u64,
                             format: u32, fence: u32, draws: seq<(u32, u32)>, head0: u32, gpuHead0: u32,
                             buf0: seq<u32>, regs0: seq<u32>, snapshot0: PipelineState, frames0: u64,
                             fb0: seq<u32>, submitted0: u64, depthMemory: bool, stored: Option<u32>, shade: Shader)
    requires before.open && |before.commands| + 2 <= before.maxCommands
    requires Delivered(device, state, PresentedList(before, BASIC_COMMANDS, framebuffer, format, fence), draws,
                       head0, head0, gpuHead0, buf0, regs0, snapshot0, frames0, fb0, submitted0, depthMemory, stored, shade)
    requires before.maxCommands as int + 1 < device.ring.capacity
    ensures device.hasFenceRegister ==> device.FenceValue() == fence
  {
    DeliveredPresentConsumed(device, state, before, framebuffer, format, fence, draws, head0, gpuHead0, buf0, regs0,
                             snapshot0, frames0, fb0, submitted0, depthMemory, stored, shade);
    PresentedFrameFenced(device, state, before.commands, draws, framebuffer, format, fence, snapshot0,
                         frames0, PushedRegisters(regs0, device.CommandWord(), device.ring.tail), fb0, depthMemory, stored, shade);
  }

  // ---------------------------------------------------------------------------
  // The cube entry points
  // ---------------------------------------------------------------------------

  /** The vertex buffer's size: `vertex_count * sizeof(GibgoCubeVertex)`, computed in 64 bits. */
  function VertexBufferBytes(count: u32): (n: u64)
    ensures n as nat == count as nat * CUBE_VERTEX_BYTES
    ensures count > 0 ==> n > 0
  {
    (count as nat * CUBE_VERTEX_BYTES) as u64
  }

  /** The index buffer's size: `index_count * sizeof(u16)`, computed in 64 bits. */
  function IndexBufferBytes(count: u32): (n: u64)
    ensures n as nat == count as nat * INDEX_BYTES
    ensures count > 0 ==> n > 0
  {
    (count as nat * INDEX_BYTES) as u64
  }

  /**
   * The outcome of one of the facade's allocate-once buffers: the result,
   * the buffer's address afterwards (0 while unallocated) and the VRAM
   * allocation offset afterwards.
   */
  datatype Once = Once(result: GpuResult, address: u64, offset: u64)

  /**
   * The allocate-once pattern of the facade's statics, from address
   * `current` and allocation offset `offset`: a buffer that has an address
   * keeps it and nothing is allocated; otherwise the bump allocator runs and
   * the address is what it hands out, or stays 0 when it fails.
   */
  function OnceAllocation(current: u64, size: u64, base: u64, offset: u64, vramSize: u64): Once
  {
    if current != 0 then Once(Success, current, offset)
    else
      var r := AllocateResult(size, offset, vramSize);
      if r != Success then Once(r, 0, offset) else Once(Success, Wrap64(base + offset), offset + AlignUp(size))
  }

  /**
   * A buffer is allocated at most once: once it has an address, every later
   * call keeps that address and allocates nothing, whatever size it asks
   * for; and a first call that fails leaves the buffer unallocated, so the
   * next call tries again from the same offset.
   */
  lemma AllocatedOnlyOnce(current: u64, size: u64, later: u64, base: u64, offset: u64, vramSize: u64)
    ensures var o := OnceAllocation(current, size, base, offset, vramSize);
      o.address != 0 ==> OnceAllocation(o.address, later, base, o.offset, vramSize) == Once(Success, o.address, o.offset)
    ensures var o := OnceAllocation(current, size, base, offset, vramSize);
      o.result != Success ==>
        (o.address == 0 && o.offset == offset &&
         OnceAllocation(o.address, later, base, o.offset, vramSize) == OnceAllocation(0, later, base, offset, vramSize))
  {
  }

  /**
   * The first allocation of a buffer is exactly one bump allocation: it
   * succeeds or fails as the allocator does, and on success the buffer gets
   * the allocator's address and the offset grows by the aligned size, which
   * stays within VRAM.
   */
  lemma FirstAllocationIsBump(size: u64, base: u64, offset: u64, vramSize: u64)
    ensures var o := OnceAllocation(0, size, base, offset, vramSize);
      o.result == AllocateResult(size, offset, vramSize) &&
      (o.result == Success ==>
        o.address == Wrap64(base + offset) && o.offset as nat == offset as nat + AlignUp(size) <= vramSize as nat) &&
      (o.result != Success ==> o.address == 0 && o.offset == offset)
  {
  }

  /** Allocating VRAM moves the allocation offset and no other bookkeeping of the device. */
  twostate predicate OnlyOffsetMoved(device: GpuDevice)
    reads device
  {
    device.fenceCounter == old(device.fenceCounter) &&
    device.commandsSubmitted == old(device.commandsSubmitted) &&
    device.framesRendered == old(device.framesRendered) &&
    device.poolUsed == old(device.poolUsed) && device.allocationCount == old(device.allocationCount) &&
    device.slotOffsets == old(device.slotOffsets)
  }

  /** The allocate-once pattern as the facade runs it on the device. */
  method AllocateOnce(device: GpuDevice, current: u64, size: u64) returns (r: GpuResult, address: u64)
    modifies device
    ensures Once(r, address, device.vramAllocationOffset) ==
      OnceAllocation(current, size, device.vramBase, old(device.vramAllocationOffset), device.vramSize)
    ensures OnlyOffsetMoved(device)
  {
    if current != 0 {
      return Success, current;
    }
    r, address := Allocate(device, size);
  }

  /**
   * The GPU half of `gibgo_upload_cube_vertices`: the allocate-once vertex
   * buffer, and SET_VERTEX_BUFFER with its address only when this call
   * allocated it.
   */
  method AllocateVertexBuffer(system: GraphicsSystem, current: u64, count: u32) returns (r: ApiResult, address: u64)
    modifies system.device, system.recorder
    ensures var o := OnceAllocation(current, VertexBufferBytes(count), system.device.vramBase,
                                    old(system.device.vramAllocationOffset), system.device.vramSize);
      r == ConvertResult(o.result) && address == o.address && system.device.vramAllocationOffset == o.offset &&
      system.recorder.State() ==
        if current == 0 && o.result == Success then Added(old(system.recorder.State()), VertexBufferCommand(address))
        else old(system.recorder.State())
    ensures OnlyOffsetMoved(system.device)
  {
    var result;
    result, address := AllocateOnce(system.device, current, VertexBufferBytes(count));
    if current == 0 && result == Success {
      var _ := SetVertexBuffer(system.recorder, address);
    }
    r := ConvertResult(result);
  }

  /**
   * `gibgo_upload_cube_vertices(vertices, count)` (`hostMemory` is whether
   * `malloc` succeeds): null or empty input, or an uninitialised system, is
   * an invalid parameter with nothing changed; a failed `malloc` leaves no
   * stored copy but the old count, and nothing else changes. Otherwise the
   * copy and its count are stored, and the vertex buffer is allocated once:
   * the result is the allocation's, converted, and SET_VERTEX_BUFFER is
   * recorded only when this call allocated the buffer. Matrices, indices and
   * their buffers are left alone.
   */
  method UploadCubeVertices(system: GraphicsSystem, store: CubeStore, vertices: Option<seq<CubeVertex>>, count: u32,
                            hostMemory: bool) returns (r: ApiResult)
    requires vertices.Some? ==> |vertices.value| == count as nat
    modifies store`cubeVertices, store`vertexCount, store`vertexBufferAddress, system.device, system.recorder
    ensures !system.isInitialized || vertices.None? || count == 0 ==>
      r == ApiInvalidParameter && unchanged(store, system.device, system.recorder)
    ensures system.isInitialized && vertices.Some? && count > 0 && !hostMemory ==>
      r == ApiOutOfMemory && store.cubeVertices == None && store.vertexCount == old(store.vertexCount) &&
      store.vertexBufferAddress == old(store.vertexBufferAddress) && unchanged(system.device, system.recorder)
    ensures system.isInitialized && vertices.Some? && count > 0 && hostMemory ==>
      var o := OnceAllocation(old(store.vertexBufferAddress), VertexBufferBytes(count), system.device.vramBase,
                              old(system.device.vramAllocationOffset), system.device.vramSize);
      store.cubeVertices == vertices && store.vertexCount == count &&
      r == ConvertResult(o.result) && store.vertexBufferAddress == o.address &&
      system.device.vramAllocationOffset == o.offset && OnlyOffsetMoved(system.device) &&
      system.recorder.State() ==
        if old(store.vertexBufferAddress) == 0 && o.result == Success
        then Added(old(system.recorder.State()), VertexBufferCommand(o.address))
        else old(system.recorder.State())
  {
    if !system.isInitialized || vertices.None? || count == 0 {
      return ApiInvalidParameter;
    }
    if !hostMemory {
      store.cubeVertices := None;
      return ApiOutOfMemory;
    }
    store.cubeVertices := vertices;
    store.vertexCount := count;
    r, store.vertexBufferAddress := AllocateVertexBuffer(system, store.vertexBufferAddress, count);
  }

  /**
   * Map `size` bytes at `address`, copy into them and unmap them when the
   * mapping succeeded; both results are ignored and the copy itself is host
   * memory the model does not hold, so nothing of the model changes.
   */
  method CopyToGpu(device: GpuDevice, address: u64, size: u64, mapping: DumbBuffer, unmapped: bool)
  {
    var mapped, pointer := Map(device, address, size, mapping);
    if mapped == Success {
      var _ := Unmap(device, pointer, size, unmapped);
    }
  }

  /**
   * The GPU half of `gibgo_set_mvp_matrices`: the allocate-once matrix
   * buffer, and when it has an address the ignored copy into it and
   * SET_MATRICES with that address.
   */
  method RecordMatrices(system: GraphicsSystem, current: u64, mapping: DumbBuffer, unmapped: bool)
    returns (r: ApiResult, address: u64)
    modifies system.device, system.recorder
    ensures var o := OnceAllocation(current, TRANSFORM_MATRICES_BYTES, system.device.vramBase,
                                    old(system.device.vramAllocationOffset), system.device.vramSize);
      r == ConvertResult(o.result) && address == o.address && system.device.vramAllocationOffset == o.offset &&
      system.recorder.State() ==
        if o.result == Success then Added(old(system.recorder.State()), MatricesCommand(address))
        else old(system.recorder.State())
    ensures OnlyOffsetMoved(system.device)
  {
    var result;
    result, address := AllocateOnce(system.device, current, TRANSFORM_MATRICES_BYTES);
    if result == Success {
      CopyToGpu(system.device, address, TRANSFORM_MATRICES_BYTES, mapping, unmapped);
      var _ := SetMatrices(system.recorder, address);
    }
    r := ConvertResult(result);
  }

  /**
   * `gibgo_set_mvp_matrices(model, view, projection)` (`mapping` and
   * `unmapped` are what `mmap` and `munmap` give, and are ignored): any
   * null matrix or an uninitialised system is an invalid parameter with
   * nothing changed; otherwise the three matrices are stored, the 192-byte
   * matrix buffer is allocated once, and unless that allocation fails
   * SET_MATRICES is recorded with the buffer's address; the result is the
   * allocation's, converted.
   */
  method SetMvpMatrices(system: GraphicsSystem, store: CubeStore, model: Option<Mat4f>, view: Option<Mat4f>,
                        projection: Option<Mat4f>, mapping: DumbBuffer, unmapped: bool) returns (r: ApiResult)
    modifies store`model, store`view, store`projection, store`matrixBufferAddress, system.device, system.recorder
    ensures !system.isInitialized || model.None? || view.None? || projection.None? ==>
      r == ApiInvalidParameter && unchanged(store, system.device, system.recorder)
    ensures system.isInitialized && model.Some? && view.Some? && projection.Some? ==>
      var o := OnceAllocation(old(store.matrixBufferAddress), TRANSFORM_MATRICES_BYTES, system.device.vramBase,
                              old(system.device.vramAllocationOffset), system.device.vramSize);
      store.model == model.value && store.view == view.value && store.projection == projection.value &&
      r == ConvertResult(o.result) && store.matrixBufferAddress == o.address &&
      system.device.vramAllocationOffset == o.offset && OnlyOffsetMoved(system.device) &&
      system.recorder.State() ==
        if o.result == Success then Added(old(system.recorder.State()), MatricesCommand(o.address))
        else old(system.recorder.State())
  {
    if !system.isInitialized || model.None? || view.None? || projection.None? {
      return ApiInvalidParameter;
    }
    store.model, store.view, store.projection := model.value, view.value, projection.value;
    r, store.matrixBufferAddress := RecordMatrices(system, store.matrixBufferAddress, mapping, unmapped);
  }

  /** SET_VERTEX_BUFFER with the uploaded vertex buffer, recorded only once it has an address. */
  function VertexBufferList(vertexBuffer: u64): (cs: seq<Command>)
    ensures vertexBuffer == 0 <==> cs == []
  {
    if vertexBuffer != 0 then [VertexBufferCommand(vertexBuffer)] else []
  }

  /**
   * What `gibgo_draw_indexed_cube` records once it gets past the index
   * buffer's allocation: the vertex buffer (when it has an address), the
   * index buffer as 16-bit indices, and one indexed draw of all the
   * indices from the first.
   */
  function IndexedDrawList(vertexBuffer: u64, indexBuffer: u64, count: u32): seq<Command>
  {
    VertexBufferList(vertexBuffer) + [IndexBufferCommand(indexBuffer, INDEX_FORMAT_U16), DrawIndexedCommand(count, 0)]
  }

  /**
   * Consumed, the list selects the index buffer with 16-bit indices and the
   * vertex buffer when it has one, and leaves the rest of the pipeline
   * alone; its draw is executed, as `(count, 0)`, exactly when both buffers
   * are then set.
   */
  lemma IndexedDrawListConsumed(s: PipelineState, vertexBuffer: u64, indexBuffer: u64, count: u32)
    ensures ConsumeAll(s, IndexedDrawList(vertexBuffer, indexBuffer, count)) ==
      s.(vertexBuffer := if vertexBuffer != 0 then vertexBuffer else s.vertexBuffer,
         indexBuffer := indexBuffer, indexFormat := INDEX_FORMAT_U16)
    ensures IndexedDraws(s, IndexedDrawList(vertexBuffer, indexBuffer, count)) ==
      if indexBuffer != 0 && (vertexBuffer != 0 || s.vertexBuffer != 0) then [(count, 0)] else []
  {
    var v := VertexBufferCommand(vertexBuffer);
    var i := IndexBufferCommand(indexBuffer, INDEX_FORMAT_U16);
    var d := DrawIndexedCommand(count, 0);
    var vb := VertexBufferList(vertexBuffer);
    var s1 := s.(vertexBuffer := if vertexBuffer != 0 then vertexBuffer else s.vertexBuffer);
    RecordedSettingsReadBack(s, vertexBuffer, INDEX_FORMAT_U16, false, 0, F32_ZERO, count, 0);
    if vertexBuffer != 0 {
      ConsumerStep(s, 0, [], v);
      assert [] + [v] == vb;
    }
    assert ConsumeAll(s, vb) == s1 && IndexedDraws(s, vb) == [];
    var s2 := s1.(indexBuffer := indexBuffer, indexFormat := INDEX_FORMAT_U16);
    RecordedSettingsReadBack(s1, indexBuffer, INDEX_FORMAT_U16, false, 0, F32_ZERO, count, 0);
    ConsumerStep(s, 0, vb, i);
    RecordedSettingsReadBack(s2, indexBuffer, INDEX_FORMAT_U16, false, 0, F32_ZERO, count, 0);
    ConsumerStep(s, 0, vb + [i], d);
    assert vb + [i] + [d] == IndexedDrawList(vertexBuffer, indexBuffer, count);
  }

  /** The vertex buffer step of `gibgo_draw_indexed_cube`: recorded only when it has an address. */
  method RecordVertexBuffer(recorder: CommandRecorder, vertexBuffer: u64)
    modifies recorder
    ensures recorder.State() == AddedAll(old(recorder.State()), VertexBufferList(vertexBuffer))
  {
    if vertexBuffer != 0 {
      ghost var before := recorder.State();
      var _ := SetVertexBuffer(recorder, vertexBuffer);
      assert [VertexBufferCommand(vertexBuffer)] == [] + [VertexBufferCommand(vertexBuffer)];
      AddedAllSnoc(before, [], VertexBufferCommand(vertexBuffer));
    }
  }

  /** The index buffer and draw steps of `gibgo_draw_indexed_cube`, after the vertex buffer step. */
  method RecordIndexedDraw(recorder: CommandRecorder, ghost before: Recording, vertexBuffer: u64, indexBuffer: u64,
                           count: u32)
    requires recorder.State() == AddedAll(before, VertexBufferList(vertexBuffer))
    modifies recorder
    ensures recorder.State() == AddedAll(before, IndexedDrawList(vertexBuffer, indexBuffer, count))
  {
    var _ := SetIndexBuffer(recorder, indexBuffer, INDEX_FORMAT_U16);
    AddedAllSnoc(before, VertexBufferList(vertexBuffer), IndexBufferCommand(indexBuffer, INDEX_FORMAT_U16));
    var _ := DrawIndexed(recorder, count, 0);
    AddedAllSnoc(before, VertexBufferList(vertexBuffer) + [IndexBufferCommand(indexBuffer, INDEX_FORMAT_U16)],
                 DrawIndexedCommand(count, 0));
    assert VertexBufferList(vertexBuffer) + [IndexBufferCommand(indexBuffer, INDEX_FORMAT_U16)] +
           [DrawIndexedCommand(count, 0)] == IndexedDrawList(vertexBuffer, indexBuffer, count);
  }

  /**
   * The recording half of `gibgo_draw_indexed_cube`, once the indices are
   * stored: the vertex buffer step, the allocate-once index buffer (with
   * the ignored copy of the indices when this call allocated it), then,
   * unless that allocation failed, the index buffer and draw steps.
   */
  method RecordCubeDraw(system: GraphicsSystem, vertexBuffer: u64, current: u64, count: u32, mapping: DumbBuffer,
                        unmapped: bool) returns (r: ApiResult, indexBuffer: u64)
    modifies system.device, system.recorder
    ensures var o := OnceAllocation(current, IndexBufferBytes(count), system.device.vramBase,
                                    old(system.device.vramAllocationOffset), system.device.vramSize);
      r == ConvertResult(o.result) && indexBuffer == o.address && system.device.vramAllocationOffset == o.offset &&
      system.recorder.State() ==
        AddedAll(old(system.recorder.State()),
                 if o.result == Success then IndexedDrawList(vertexBuffer, indexBuffer, count)
                 else VertexBufferList(vertexBuffer))
    ensures OnlyOffsetMoved(system.device)
  {
    ghost var before := system.recorder.State();
    RecordVertexBuffer(system.recorder, vertexBuffer);
    var result;
    result, indexBuffer := AllocateOnce(system.device, current, IndexBufferBytes(count));
    if result == Success {
      if current == 0 {
        CopyToGpu(system.device, indexBuffer, IndexBufferBytes(count), mapping, unmapped);
      }
      RecordIndexedDraw(system.recorder, before, vertexBuffer, indexBuffer, count);
    }
    r := ConvertResult(result);
  }

  /**
   * `gibgo_draw_indexed_cube(indices, count)` (`hostMemory` is whether
   * `malloc` succeeds; `mapping` and `unmapped` are what the dumb-buffer step of the
   * map and `munmap` give, and are ignored): null or empty indices, an
   * uninitialised system, or no uploaded vertices are an invalid parameter
   * with nothing changed; a failed `malloc` leaves no stored indices but the
   * old count, and nothing else changes. Otherwise the indices and their
   * count are stored, the vertex buffer is recorded when it has an address,
   * the index buffer is allocated once, and unless that allocation fails
   * the index buffer and the draw of all the indices are recorded; the
   * result is the allocation's, converted.
   */
  method DrawIndexedCube(system: GraphicsSystem, store: CubeStore, indices: Option<seq<u16>>, count: u32,
                         hostMemory: bool, mapping: DumbBuffer, unmapped: bool) returns (r: ApiResult)
    requires indices.Some? ==> |indices.value| == count as nat
    modifies store`cubeIndices, store`indexCount, store`indexBufferAddress, system.device, system.recorder
    ensures !system.isInitialized || indices.None? || count == 0 || store.cubeVertices.None? ==>
      r == ApiInvalidParameter && unchanged(store, system.device, system.recorder)
    ensures system.isInitialized && indices.Some? && count > 0 && store.cubeVertices.Some? && !hostMemory ==>
      r == ApiOutOfMemory && store.cubeIndices == None && store.indexCount == old(store.indexCount) &&
      store.indexBufferAddress == old(store.indexBufferAddress) && unchanged(system.device, system.recorder)
    ensures system.isInitialized && indices.Some? && count > 0 && store.cubeVertices.Some? && hostMemory ==>
      var o := OnceAllocation(old(store.indexBufferAddress), IndexBufferBytes(count), system.device.vramBase,
                              old(system.device.vramAllocationOffset), system.device.vramSize);
      store.cubeIndices == indices && store.indexCount == count &&
      r == ConvertResult(o.result) && store.indexBufferAddress == o.address &&
      system.device.vramAllocationOffset == o.offset && OnlyOffsetMoved(system.device) &&
      system.recorder.State() ==
        AddedAll(old(system.recorder.State()),
                 if o.result == Success then IndexedDrawList(store.vertexBufferAddress, o.address, count)
                 else VertexBufferList(store.vertexBufferAddress))
  {
    if !system.isInitialized || indices.None? || count == 0 {
      return ApiInvalidParameter;
    }
    if store.cubeVertices.None? {
      return ApiInvalidParameter;
    }
    if !hostMemory {
      store.cubeIndices := None;
      return ApiOutOfMemory;
    }
    store.cubeIndices := indices;
    store.indexCount := count;
    r, store.indexBufferAddress :=
      RecordCubeDraw(system, store.vertexBufferAddress, store.indexBufferAddress, count, mapping, unmapped);
  }

  /** What `gibgo_enable_depth_testing` records: the switch, then the less-than comparison. */
  function DepthTestingList(enable: bool): seq<Command>
  {
    [DepthTestCommand(enable), DepthCompareCommand(DEPTH_LESS)]
  }

  /**
   * Consumed, the list sets the depth test to 1 or 0 and the comparison to
   * less-than, and leaves the rest of the pipeline alone; it draws nothing.
   */
  lemma DepthTestingListConsumed(s: PipelineState, enable: bool)
    ensures ConsumeAll(s, DepthTestingList(enable)) ==
      s.(depthTestEnabled := if enable then 1 else 0, depthCompareOp := DEPTH_LESS)
    ensures IndexedDraws(s, DepthTestingList(enable)) == []
  {
    var t := DepthTestCommand(enable);
    var c := DepthCompareCommand(DEPTH_LESS);
    var s1 := s.(depthTestEnabled := if enable then 1 else 0);
    RecordedSettingsReadBack(s, 0, 0, enable, DEPTH_LESS, F32_ZERO, 0, 0);
    assert ConsumeAll(s, [t]) == s1 && IndexedDraws(s, [t]) == [];
    RecordedSettingsReadBack(s1, 0, 0, enable, DEPTH_LESS, F32_ZERO, 0, 0);
    ConsumeAllSnoc(s, [t], c);
    IndexedDrawsSnoc(s, [t], c);
    assert [t] + [c] == DepthTestingList(enable);
  }

  /**
   * `gibgo_enable_depth_testing(enable)`: an invalid parameter with nothing
   * recorded on an uninitialised system; otherwise ENABLE_DEPTH_TEST and
   * SET_DEPTH_COMPARE(less) are recorded and the result is success.
   */
  method EnableDepthTesting(system: GraphicsSystem, enable: bool) returns (r: ApiResult)
    modifies system.recorder
    ensures r == ApiSuccess <==> system.isInitialized
    ensures !system.isInitialized ==> r == ApiInvalidParameter && unchanged(system.recorder)
    ensures system.isInitialized ==>
      system.recorder.State() == AddedAll(old(system.recorder.State()), DepthTestingList(enable))
  {
    if !system.isInitialized {
      return ApiInvalidParameter;
    }
    ghost var before := system.recorder.State();
    var _ := EnableDepthTest(system.recorder, enable);
    assert [DepthTestCommand(enable)] == [] + [DepthTestCommand(enable)];
    AddedAllSnoc(before, [], DepthTestCommand(enable));
    var result := SetDepthCompare(system.recorder, DEPTH_LESS);
    AddedAllSnoc(before, [DepthTestCommand(enable)], DepthCompareCommand(DEPTH_LESS));
    return ConvertResult(result);
  }

  /**
   * `gibgo_clear_depth_buffer_3d`: an invalid parameter with nothing
   * recorded on an uninitialised system; otherwise CLEAR_DEPTH_BUFFER with
   * the bits of 1.0 is recorded and the result is success.
   */
  method ClearDepthBuffer3d(system: GraphicsSystem) returns (r: ApiResult)
    modifies system.recorder
    ensures r == ApiSuccess <==> system.isInitialized
    ensures !system.isInitialized ==> r == ApiInvalidParameter && unchanged(system.recorder)
    ensures system.isInitialized ==>
      system.recorder.State() == Added(old(system.recorder.State()), ClearDepthCommand(F32_ONE))
  {
    if !system.isInitialized {
      return ApiInvalidParameter;
    }
    var result := ClearDepthBuffer(system.recorder, F32_ONE);
    return ConvertResult(result);
  }
}
