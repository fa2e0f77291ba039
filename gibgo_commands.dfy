// The `gibgoGraphics` cube's command layer on top of the shared recorder and
// ring producer: the recorders of the depth, matrix and index-buffer
// commands, `gibgo_load_shaders` over the VRAM bump allocator, and the
// submission, which pushes the list into the ring and then lets
// `gpu_execute_command_ring` drain it. `gibgo_set_viewport`,
// `gibgo_draw_primitives` and `gibgo_present_frame` are `FrameRecording`'s
// with `BASIC_COMMANDS`.
module GibgoCommands {
  import opened MachineWords
  import opened GpuCore
  import opened GibgoTypes
  import opened GpuAlignment
  import opened CommandRingModel
  import opened CommandList
  import opened GpuDevices
  import opened RingSubmission
  import opened FrameRecording
  import opened FenceWait
  import opened GibgoMemory
  import opened GibgoExecution
  import opened Rasteriser

  // ---------------------------------------------------------------------------
  // The recorded commands
  // ---------------------------------------------------------------------------

  /** `SET_DEPTH_BUFFER(lo, hi, format)`. */
  function DepthBufferCommand(address: u64, format: u32): Command
  {
    Command(SET_DEPTH_BUFFER, AddressLow(address), AddressHigh(address), format)
  }

  /** `CLEAR_DEPTH_BUFFER(bits, 0, 0)`: the depth value travels as its bit pattern. */
  function ClearDepthCommand(depth: F32): Command
  {
    Command(CLEAR_DEPTH_BUFFER, depth.bits as int, 0, 0)
  }

  /** `ENABLE_DEPTH_TEST(1 or 0, 0, 0)`. */
  function DepthTestCommand(enable: bool): Command
  {
    Command(ENABLE_DEPTH_TEST, if enable then 1 else 0, 0, 0)
  }

  /** `SET_DEPTH_COMPARE(op, 0, 0)`. */
  function DepthCompareCommand(op: u32): Command
  {
    Command(SET_DEPTH_COMPARE, op, 0, 0)
  }

  /** `SET_MATRICES(lo, hi, 0)`. */
  function MatricesCommand(address: u64): Command
  {
    Command(SET_MATRICES, AddressLow(address), AddressHigh(address), 0)
  }

  /** `SET_INDEX_BUFFER(lo, hi, format)`. */
  function IndexBufferCommand(address: u64, format: u32): Command
  {
    Command(SET_INDEX_BUFFER, AddressLow(address), AddressHigh(address), format)
  }

  /** `DRAW_INDEXED(count, first, 0)`. */
  function DrawIndexedCommand(count: u32, first: u32): Command
  {
    Command(DRAW_INDEXED, count, first, 0)
  }

  /** `SET_VERTEX_BUFFER(lo, hi, 0)`: this recorder passes no stride. */
  function VertexBufferCommand(address: u64): Command
  {
    Command(SET_VERTEX_BUFFER, AddressLow(address), AddressHigh(address), 0)
  }

  /**
   * What the consumer makes of each recorded command: every SET command
   * sets exactly its own fields of the pipeline state to the values that
   * were recorded, the depth-buffer and depth-clear commands have no case
   * in the consumer, and an indexed draw runs exactly when both buffers
   * are set.
   */
  lemma RecordedSettingsReadBack(s: PipelineState, address: u64, format: u32, enable: bool, op: u32, depth: F32,
                                 count: u32, first: u32)
    ensures Consume(s, VertexBufferCommand(address)) == s.(vertexBuffer := address)
    ensures Consume(s, IndexBufferCommand(address, format)) == s.(indexBuffer := address, indexFormat := format)
    ensures Consume(s, MatricesCommand(address)) == s.(matrixBuffer := address)
    ensures Consume(s, DepthTestCommand(enable)) == s.(depthTestEnabled := if enable then 1 else 0)
    ensures Consume(s, DepthCompareCommand(op)) == s.(depthCompareOp := op)
    ensures Consume(s, DepthBufferCommand(address, format)) == s
    ensures Consume(s, ClearDepthCommand(depth)) == s
    ensures Consume(s, DrawIndexedCommand(count, first)) == s
    ensures DrawsIndexed(s, DrawIndexedCommand(count, first)) <==> s.vertexBuffer != 0 && s.indexBuffer != 0
  {
    AddressRoundTrip(address);
  }

  /** The two shader commands, consumed in order, set the two shader addresses and nothing else. */
  lemma ShaderCommandsReadBack(s: PipelineState, vertexShader: u64, vertexSize: u32, fragmentShader: u64,
                               fragmentSize: u32)
    ensures ConsumeAll(s, ShaderCommands(BASIC_COMMANDS, vertexShader, vertexSize, fragmentShader, fragmentSize)) ==
      s.(vertexShader := vertexShader, fragmentShader := fragmentShader)
  {
    var cs := ShaderCommands(BASIC_COMMANDS, vertexShader, vertexSize, fragmentShader, fragmentSize);
    assert ConsumeAll(s, cs[..1]) == Consume(s, cs[0]) by {
      assert cs[..1][..0] == [] && cs[..1][0] == cs[0];
    }
    AddressRoundTrip(vertexShader);
    AddressRoundTrip(fragmentShader);
  }

  // ---------------------------------------------------------------------------
  // The recorders
  // ---------------------------------------------------------------------------

  /** `gibgo_set_depth_buffer`: records the command, ignores `add_command`'s result, `SUCCESS`. */
  method SetDepthBuffer(recorder: CommandRecorder, address: u64, format: u32) returns (r: GpuResult)
    modifies recorder
    ensures r == Success
    ensures recorder.State() == Added(old(recorder.State()), DepthBufferCommand(address, format))
  {
    var _ := AddCommand(recorder, DepthBufferCommand(address, format));
    return Success;
  }

  /** `gibgo_clear_depth_buffer`: records the depth value's bits, `SUCCESS`. */
  method ClearDepthBuffer(recorder: CommandRecorder, depth: F32) returns (r: GpuResult)
    modifies recorder
    ensures r == Success
    ensures recorder.State() == Added(old(recorder.State()), ClearDepthCommand(depth))
  {
    var _ := AddCommand(recorder, ClearDepthCommand(depth));
    return Success;
  }

  /** `gibgo_enable_depth_test`: records 1 or 0, `SUCCESS`. */
  method EnableDepthTest(recorder: CommandRecorder, enable: bool) returns (r: GpuResult)
    modifies recorder
    ensures r == Success
    ensures recorder.State() == Added(old(recorder.State()), DepthTestCommand(enable))
  {
    var _ := AddCommand(recorder, DepthTestCommand(enable));
    return Success;
  }

  /** `gibgo_set_depth_compare`: records the operation, whatever its value, `SUCCESS`. */
  method SetDepthCompare(recorder: CommandRecorder, op: u32) returns (r: GpuResult)
    modifies recorder
    ensures r == Success
    ensures recorder.State() == Added(old(recorder.State()), DepthCompareCommand(op))
  {
    var _ := AddCommand(recorder, DepthCompareCommand(op));
    return Success;
  }

  /** `gibgo_set_matrices`: records the matrix buffer's address, `SUCCESS`. */
  method SetMatrices(recorder: CommandRecorder, address: u64) returns (r: GpuResult)
    modifies recorder
    ensures r == Success
    ensures recorder.State() == Added(old(recorder.State()), MatricesCommand(address))
  {
    var _ := AddCommand(recorder, MatricesCommand(address));
    return Success;
  }

  /** `gibgo_set_index_buffer`: records the index buffer's address and format, `SUCCESS`. */
  method SetIndexBuffer(recorder: CommandRecorder, address: u64, format: u32) returns (r: GpuResult)
    modifies recorder
    ensures r == Success
    ensures recorder.State() == Added(old(recorder.State()), IndexBufferCommand(address, format))
  {
    var _ := AddCommand(recorder, IndexBufferCommand(address, format));
    return Success;
  }

  /** `gibgo_draw_indexed`: records the draw, `SUCCESS`. */
  method DrawIndexed(recorder: CommandRecorder, count: u32, first: u32) returns (r: GpuResult)
    modifies recorder
    ensures r == Success
    ensures recorder.State() == Added(old(recorder.State()), DrawIndexedCommand(count, first))
  {
    var _ := AddCommand(recorder, DrawIndexedCommand(count, first));
    return Success;
  }

  /** `gibgo_set_vertex_buffer`: records the vertex buffer's address, `SUCCESS`. */
  method SetVertexBuffer(recorder: CommandRecorder, address: u64) returns (r: GpuResult)
    modifies recorder
    ensures r == Success
    ensures recorder.State() == Added(old(recorder.State()), VertexBufferCommand(address))
  {
    var _ := AddCommand(recorder, VertexBufferCommand(address));
    return Success;
  }

  // ---------------------------------------------------------------------------
  // Shaders
  // ---------------------------------------------------------------------------

  /**
   * The outcome of the two shader allocations from VRAM offset `offset`:
   * the first failure, or `SUCCESS` when the fragment shader also fits
   * after the vertex shader's aligned size.
   */
  function ShaderAllocationResult(offset: u64, vramSize: u64, vertexSize: u32, fragmentSize: u32): GpuResult
  {
    var first := AllocateResult(vertexSize, offset, vramSize);
    if first != Success then first else AllocateResult(fragmentSize, Wrap64(offset + AlignUp(vertexSize)), vramSize)
  }

  /**
   * Loading shaders fails only for an empty shader or when the two aligned
   * sizes together do not fit in what is left of VRAM, and then with the
   * error of the first allocation that failed.
   */
  lemma ShaderAllocationMeaning(offset: u64, vramSize: u64, vertexSize: u32, fragmentSize: u32)
    requires offset <= vramSize
    ensures var r := ShaderAllocationResult(offset, vramSize, vertexSize, fragmentSize);
      (r == InvalidParameter <==>
         vertexSize == 0 || (offset + AlignUp(vertexSize) <= vramSize && fragmentSize == 0)) &&
      (r == Success <==>
         vertexSize != 0 && fragmentSize != 0 && offset + AlignUp(vertexSize) + AlignUp(fragmentSize) <= vramSize) &&
      (r == Success || r == InvalidParameter || r == OutOfMemory)
  {
    if vertexSize != 0 && offset + AlignUp(vertexSize) <= vramSize {
      assert Wrap64(offset + AlignUp(vertexSize)) == offset + AlignUp(vertexSize);
    }
  }

  /**
   * `gibgo_load_shaders`: `INVALID_PARAMETER` with nothing changed unless
   * both SPIR-V pointers are given (`spirvGiven`); then two allocations,
   * each passing on its failure; a
   * failed allocation leaves its shader address as it was. After both
   * succeed the shaders are copied (not modelled) and the two shader
   * commands are recorded, their results ignored; `SUCCESS`.
   */
  method LoadShaders(context: Context, recorder: CommandRecorder, spirvGiven: bool, vertexSize: u32, fragmentSize: u32)
    returns (r: GpuResult)
    modifies context, context.device, recorder
    ensures !spirvGiven ==>
      r == InvalidParameter && recorder.State() == old(recorder.State()) && unchanged(context, context.device)
    ensures spirvGiven ==> r == ShaderAllocationResult(old(context.device.vramAllocationOffset), context.device.vramSize,
                                        vertexSize, fragmentSize)
    ensures spirvGiven && AllocateResult(vertexSize, old(context.device.vramAllocationOffset), context.device.vramSize) == Success ==>
      context.vertexShaderAddress == Wrap64(context.device.vramBase + old(context.device.vramAllocationOffset))
    ensures !spirvGiven || AllocateResult(vertexSize, old(context.device.vramAllocationOffset), context.device.vramSize) != Success ==>
      context.vertexShaderAddress == old(context.vertexShaderAddress) &&
      context.device.vramAllocationOffset == old(context.device.vramAllocationOffset)
    ensures spirvGiven && r == Success ==>
      context.fragmentShaderAddress ==
        Wrap64(context.device.vramBase + old(context.device.vramAllocationOffset) + AlignUp(vertexSize)) &&
      context.device.vramAllocationOffset ==
        old(context.device.vramAllocationOffset) + AlignUp(vertexSize) + AlignUp(fragmentSize) &&
      recorder.State() == AddedAll(old(recorder.State()),
                                   ShaderCommands(BASIC_COMMANDS, context.vertexShaderAddress, vertexSize,
                                                  context.fragmentShaderAddress, fragmentSize))
    ensures r != Success ==>
      context.fragmentShaderAddress == old(context.fragmentShaderAddress) && recorder.State() == old(recorder.State())
    ensures context.device.fenceCounter == old(context.device.fenceCounter) &&
            context.device.commandsSubmitted == old(context.device.commandsSubmitted) &&
            context.device.framesRendered == old(context.device.framesRendered)
    ensures context.framebufferAddress == old(context.framebufferAddress) &&
            context.vertexBufferAddress == old(context.vertexBufferAddress) &&
            context.frameFence == old(context.frameFence) && context.currentFrameIndex == old(context.currentFrameIndex)
  {
    if !spirvGiven {
      return InvalidParameter;
    }
    var device := context.device;
    var address;
    r, address := Allocate(device, vertexSize);
    if r != Success {
      return r;
    }
    context.vertexShaderAddress := address;
    assert Wrap64(old(device.vramAllocationOffset) + AlignUp(vertexSize)) == device.vramAllocationOffset;
    r, address := Allocate(device, fragmentSize);
    if r != Success {
      return r;
    }
    context.fragmentShaderAddress := address;
    AddCommands(recorder, ShaderCommands(BASIC_COMMANDS, context.vertexShaderAddress, vertexSize,
                                         context.fragmentShaderAddress, fragmentSize));
  }

  // ---------------------------------------------------------------------------
  // Submission
  // ---------------------------------------------------------------------------

  /** The registers after a push that did not time out: the new tail, then 1 in the start register. */
  function PushedRegisters(regs: seq<u32>, commandWord: nat, tail: u32): seq<u32>
    requires commandWord + GPU_TAIL_PTR < |regs|
  {
    regs[commandWord + GPU_TAIL_PTR := tail][commandWord + GPU_COMMAND_START := 1]
  }

  /**
   * The ring after the producer stored all of `cmds` without a timeout,
   * against the ring before it (the `0` parameters): the records follow the
   * old tail and the tail is the producer's.
   */
  ghost predicate RingFilled(ring: CommandRing, cmds: seq<Command>, head0: u32, tail0: u32, gpuHead0: u32,
                             buf0: seq<u32>)
    reads ring`capacity, ring`tail, ring`buffer, ring.buffer
  {
    head0 < ring.capacity && tail0 < ring.capacity &&
    4 * ring.capacity <= ring.buffer.Length == |buf0| &&
    var o := Produce(head0, tail0, ring.capacity, gpuHead0, |cmds|);
    !o.timedOut && o.written == |cmds| && ring.tail == o.tail && o.head < ring.capacity &&
    (o.head == head0 || o.head == gpuHead0) &&
    ring.buffer[..] == RingImage(buf0, tail0, ring.capacity, cmds)
  }

  /**
   * The state after a submission of `cmds` that did not time out, against
   * the state before it (the `0` parameters): the records are in the ring
   * after the old tail, the consumer has drained the ring, executing the
   * records from the head the producer ended with over the registers the
   * push left, and the command count is added to the statistics;
   * `depthMemory` says whether the host granted each indexed draw its depth
   * buffer.
   */
  ghost predicate Delivered(device: GpuDevice, state: GpuState, cmds: seq<Command>, draws: seq<(u32, u32)>,
                            head0: u32, tail0: u32, gpuHead0: u32, buf0: seq<u32>, regs0: seq<u32>,
                            snapshot0: PipelineState, frames0: u64, fb0: seq<u32>, submitted0: u64,
                            depthMemory: bool, stored: Option<u32>, shade: Shader)
    reads device, device.ring, device.ring.buffer, device.registers, device.framebuffer, state
  {
    device.Valid() && |regs0| == device.registers.Length &&
    RingFilled(device.ring, cmds, head0, tail0, gpuHead0, buf0) &&
    device.ring.head == device.ring.tail &&
    device.commandsSubmitted == CountedAfter(submitted0, |cmds|) &&
    var o := Produce(head0, tail0, device.ring.capacity, gpuHead0, |cmds|);
    ConsumedSoFar(device, state, draws, Pending(device.ring.buffer[..], o.head, o.tail, device.ring.capacity),
                  snapshot0, frames0, PushedRegisters(regs0, device.CommandWord(), device.ring.tail), fb0,
                  depthMemory, stored, shade)
  }

  /**
   * The part of the submission after a push that did not time out, stated
   * against the state before the push (the ghost parameters): the consumer
   * drains the ring, then the command count is added to the statistics.
   */
  method DrainPushed(device: GpuDevice, state: GpuState, cmds: seq<Command>, stored: Option<u32>, depthMemory: bool,
                     shade: Shader,
                     ghost head0: u32, ghost tail0: u32, ghost gpuHead0: u32, ghost buf0: seq<u32>,
                     ghost regs0: seq<u32>, ghost snapshot0: PipelineState, ghost frames0: u64,
                     ghost fb0: seq<u32>, ghost submitted0: u64)
    returns (draws: seq<(u32, u32)>)
    requires device.Valid() && device.ring.head < device.ring.capacity
    requires RingFilled(device.ring, cmds, head0, tail0, gpuHead0, buf0)
    requires device.ring.head == Produce(head0, tail0, device.ring.capacity, gpuHead0, |cmds|).head
    requires |regs0| == device.registers.Length &&
             device.registers[..] == PushedRegisters(regs0, device.CommandWord(), device.ring.tail)
    requires state.Snapshot() == snapshot0 && device.framesRendered == frames0 &&
             device.framebuffer[..] == fb0 && device.commandsSubmitted == submitted0
    modifies device`framesRendered, device`commandsSubmitted, device.ring`head, device.registers, device.framebuffer
    modifies state
    ensures Delivered(device, state, cmds, draws, head0, tail0, gpuHead0, buf0, regs0, snapshot0, frames0, fb0,
                      submitted0, depthMemory, stored, shade)
  {
    ghost var o := Produce(head0, tail0, device.ring.capacity, gpuHead0, |cmds|);
    var consumed;
    consumed, draws := ExecuteCommandRing(device, state, stored, depthMemory, shade,
                                          Pending(device.ring.buffer[..], o.head, o.tail, device.ring.capacity),
                                          snapshot0, frames0, PushedRegisters(regs0, device.CommandWord(), device.ring.tail),
                                          fb0);
    CountSubmitted(device, |cmds|, submitted0);
  }

  /**
   * `submit_commands_to_hardware` of this variant, when the producer leaves
   * the head inside the ring (otherwise the consumer would read outside
   * the ring buffer). The push is `PushToRing`'s; after a timeout
   * nothing else happens. Otherwise the records between the head and the
   * new tail are consumed from the pipeline state, the frame count and the
   * registers the push left, the ring is drained, and the command count is
   * added to the statistics (the consumer never fails, so its result needs
   * no check).
   */
  method SubmitToHardware(device: GpuDevice, state: GpuState, cmds: seq<Command>, stored: Option<u32>,
                          depthMemory: bool, shade: Shader)
    returns (r: GpuResult, draws: seq<(u32, u32)>)
    requires device.Valid() && device.ring.head < device.ring.capacity
    requires HeadStaysInRing(device.ring.head, device.ring.tail, device.ring.capacity, GpuHead(device), |cmds|)
    modifies device, device.ring, device.ring.buffer, device.registers, device.framebuffer, state
    ensures r == Success || r == GpuTimeout
    ensures r == GpuTimeout ==>
      Pushed(device, cmds, r) && draws == [] && unchanged(device, state, device.framebuffer)
    ensures r == Success ==>
      device.ring.buffer == old(device.ring.buffer) && device.ring.capacity == old(device.ring.capacity) &&
      Delivered(device, state, cmds, draws, old(device.ring.head), old(device.ring.tail), old(GpuHead(device)),
                old(device.ring.buffer[..]), old(device.registers[..]), old(state.Snapshot()),
                old(device.framesRendered), old(device.framebuffer[..]), old(device.commandsSubmitted), depthMemory, stored, shade)
    ensures device.fenceCounter == old(device.fenceCounter) &&
            device.vramAllocationOffset == old(device.vramAllocationOffset)
  {
    ghost var head0, tail0, gpuHead0 := device.ring.head, device.ring.tail, GpuHead(device);
    ghost var buf0, regs0, fb0 := device.ring.buffer[..], device.registers[..], device.framebuffer[..];
    ghost var snapshot0, frames0, submitted0 := state.Snapshot(), device.framesRendered, device.commandsSubmitted;
    ProduceShape(head0, tail0, device.ring.capacity, gpuHead0, |cmds|);
    HeadStaysInRingExactly(head0, tail0, device.ring.capacity, gpuHead0, |cmds|);
    r := PushToRing(device, cmds);
    if r != Success {
      draws := [];
      return;
    }
    assert cmds[..|cmds|] == cmds;
    draws := DrainPushed(device, state, cmds, stored, depthMemory, shade, head0, tail0, gpuHead0, buf0, regs0, snapshot0, frames0,
                         fb0, submitted0);
  }

  /**
   * `gibgo_submit_commands`: `INVALID_PARAMETER` without touching anything
   * when no list is open; otherwise the recorded list goes to
   * `SubmitToHardware`, the list is freed whatever the outcome, and the
   * outcome is returned.
   */
  method SubmitCommands(device: GpuDevice, state: GpuState, recorder: CommandRecorder, stored: Option<u32>,
                        depthMemory: bool, shade: Shader)
    returns (r: GpuResult, draws: seq<(u32, u32)>)
    requires device.Valid() && device.ring.head < device.ring.capacity
    requires HeadStaysInRing(device.ring.head, device.ring.tail, device.ring.capacity, GpuHead(device),
                             |recorder.commands|)
    modifies device, device.ring, device.ring.buffer, device.registers, device.framebuffer, state, recorder
    ensures !old(recorder.open) ==>
      r == InvalidParameter && draws == [] && recorder.State() == old(recorder.State()) &&
      unchanged(device, device.ring, device.registers, device.framebuffer, state) &&
      unchanged(old(device.ring.buffer))
    ensures old(recorder.open) ==> recorder.State() == Recording(false, [], 0) && (r == Success || r == GpuTimeout)
    ensures old(recorder.open) && r == GpuTimeout ==>
      Pushed(device, old(recorder.commands), r) && draws == [] && unchanged(device, state, device.framebuffer)
    ensures old(recorder.open) && r == Success ==>
      device.ring.buffer == old(device.ring.buffer) && device.ring.capacity == old(device.ring.capacity) &&
      Delivered(device, state, old(recorder.commands), draws, old(device.ring.head), old(device.ring.tail),
                old(GpuHead(device)), old(device.ring.buffer[..]), old(device.registers[..]), old(state.Snapshot()),
                old(device.framesRendered), old(device.framebuffer[..]), old(device.commandsSubmitted), depthMemory, stored, shade)
    ensures device.fenceCounter == old(device.fenceCounter) &&
            device.vramAllocationOffset == old(device.vramAllocationOffset)
  {
    if !recorder.open {
      return InvalidParameter, [];
    }
    r, draws := SubmitToHardware(device, state, recorder.commands, stored, depthMemory, shade);
    ResetList(recorder);
  }

  /**
   * A submission that started from an empty ring, of fewer records than the
   * ring has slots, hands the consumer exactly the submitted list, in order:
   * the pipeline state, the executed draws, the frame count and the fence
   * register end as if the consumer had run over `cmds` itself.
   */
  lemma DeliveredFromEmptyRing(device: GpuDevice, state: GpuState, cmds: seq<Command>, draws: seq<(u32, u32)>,
                               head0: u32, gpuHead0: u32, buf0: seq<u32>, regs0: seq<u32>,
                               snapshot0: PipelineState, frames0: u64, fb0: seq<u32>, submitted0: u64,
                               depthMemory: bool, stored: Option<u32>, shade: Shader)
    requires Delivered(device, state, cmds, draws, head0, head0, gpuHead0, buf0, regs0, snapshot0, frames0, fb0,
                       submitted0, depthMemory, stored, shade)
    requires |cmds| < device.ring.capacity
    ensures ConsumedSoFar(device, state, draws, cmds, snapshot0, frames0,
                          PushedRegisters(regs0, device.CommandWord(), device.ring.tail), fb0, depthMemory, stored, shade)
  {
    var capacity := device.ring.capacity as nat;
    PendingAfterEmptyPush(buf0, head0, capacity, gpuHead0, cmds);
  }

  /**
   * Pushing into an empty ring fewer records than it has slots leaves the
   * head where it was, and the records between head and tail are exactly
   * the pushed ones.
   */
  lemma PendingAfterEmptyPush(buf: seq<u32>, head: nat, capacity: nat, gpuHead: nat, cmds: seq<Command>)
    requires head < capacity && 4 * capacity <= |buf| && |cmds| < capacity
    ensures Produce(head, head, capacity, gpuHead, |cmds|) ==
      ProduceOutcome(false, head, Advance(head, |cmds|, capacity), |cmds|)
    ensures Advance(head, |cmds|, capacity) < capacity
    ensures Pending(RingImage(buf, head, capacity, cmds), head, Advance(head, |cmds|, capacity), capacity) == cmds
  {
    PushFits(buf, head, head, capacity, gpuHead, cmds);
    AdvanceIsOffset(head, |cmds|, capacity);
    assert Distance(head, Advance(head, |cmds|, capacity), capacity) == |cmds|;
  }
}
