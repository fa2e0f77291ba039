// The `directDrm` rotating cube's own part of the command layer: the
// uniform-buffer, depth-test and face-culling recorders, shader loading
// through the slot-table allocator, and the submission that runs the
// software renderer over the whole list before it writes the list to the
// ring. The recorders it shares with the triangle are `FrameRecording`'s,
// with `CUBE_COMMANDS` as the numbering.
module CubeCommands {
  import opened MachineWords
  import opened GpuCore
  import opened GibgoTypes
  import opened CommandList
  import opened GpuDevices
  import opened GpuAlignment
  import opened DrmMemory
  import opened RingSubmission
  import opened FrameRecording
  import opened CubeExecution
  import opened Rasteriser

  /** `SET_UNIFORM_BUFFER(lo, hi, size)`. */
  function UniformCommand(address: u64, size: u32): Command
  {
    Command(SET_UNIFORM_BUFFER, AddressLow(address), AddressHigh(address), size)
  }

  /** `ENABLE_DEPTH_TEST(enable ? 1 : 0, near.bits, far.bits)`. */
  function DepthTestCommand(enable: bool, near: F32, far: F32): Command
  {
    Command(ENABLE_DEPTH_TEST, if enable then 1 else 0, near.bits as int, far.bits as int)
  }

  /** `ENABLE_FACE_CULLING(enable ? 1 : 0, 0, 0)`. */
  function CullingCommand(enable: bool): Command
  {
    Command(ENABLE_FACE_CULLING, if enable then 1 else 0, 0, 0)
  }

  /**
   * What the software renderer makes of these commands: the uniform command
   * gives back the buffer address, the culling command the flag, and the
   * depth-test command is not interpreted at all.
   */
  lemma RecordedSettingsReadBack(s: RenderState, address: u64, size: u32, enable: bool, near: F32, far: F32)
    ensures Step(s, UniformCommand(address, size)) == s.(uniformBuffer := address)
    ensures Step(s, CullingCommand(enable)) == s.(culling := enable)
    ensures Step(s, DepthTestCommand(enable, near, far)) == s
  {
    AddressRoundTrip(address);
  }

  /**
   * `gibgo_set_uniform_buffer(address, size)`: the context remembers the
   * buffer, then the uniform command is recorded and its result returned.
   */
  method SetUniformBuffer(context: Context, recorder: CommandRecorder, address: u64, size: u32)
    returns (r: GpuResult)
    modifies context`uniformBufferAddress, context`uniformBufferSize, recorder
    ensures context.uniformBufferAddress == address && context.uniformBufferSize == size
    ensures r == AddResult(old(recorder.State()), UniformCommand(address, size))
    ensures recorder.State() == Added(old(recorder.State()), UniformCommand(address, size))
  {
    context.uniformBufferAddress := address;
    context.uniformBufferSize := size;
    r := AddCommand(recorder, UniformCommand(address, size));
  }

  /**
   * `gibgo_enable_depth_test(enable, near, far)`: the context remembers the
   * setting and the planes, then the depth-test command carrying the planes'
   * bits is recorded and its result returned.
   */
  method EnableDepthTest(context: Context, recorder: CommandRecorder, enable: bool, near: F32, far: F32)
    returns (r: GpuResult)
    modifies context, recorder
    ensures context.depthTestEnabled == enable && context.depthNear == near && context.depthFar == far
    ensures r == AddResult(old(recorder.State()), DepthTestCommand(enable, near, far))
    ensures recorder.State() == Added(old(recorder.State()), DepthTestCommand(enable, near, far))
    ensures context.framebufferAddress == old(context.framebufferAddress) &&
            context.vertexBufferAddress == old(context.vertexBufferAddress) &&
            context.uniformBufferAddress == old(context.uniformBufferAddress) &&
            context.frameFence == old(context.frameFence) &&
            context.currentFrameIndex == old(context.currentFrameIndex)
  {
    context.depthTestEnabled := enable;
    context.depthNear := near;
    context.depthFar := far;
    r := AddCommand(recorder, DepthTestCommand(enable, near, far));
  }

  /**
   * `gibgo_enable_face_culling(enable)`: records the culling command and
   * returns its result; the context keeps no culling field.
   */
  method EnableFaceCulling(recorder: CommandRecorder, enable: bool) returns (r: GpuResult)
    modifies recorder
    ensures r == AddResult(old(recorder.State()), CullingCommand(enable))
    ensures recorder.State() == Added(old(recorder.State()), CullingCommand(enable))
  {
    r := AddCommand(recorder, CullingCommand(enable));
  }

  /**
   * `gibgo_load_shaders(vertex, vertexSize, fragment, fragmentSize)`:
   * `INVALID_PARAMETER` with nothing changed unless both SPIR-V pointers are
   * given (`spirvGiven`); then the
   * two allocations of `AllocateShaders`, the first failure returned with
   * nothing recorded; after both, the shader bytes are copied through `map`
   * with the results ignored, the two shader commands are recorded, their
   * results ignored too, and the answer is `SUCCESS`.
   */
  method LoadShaders(context: Context, recorder: CommandRecorder, spirvGiven: bool, vertexSize: u32, fragmentSize: u32)
    returns (r: GpuResult)
    requires context.device.Valid() && context.device.PoolValid()
    modifies context`vertexShaderAddress, context`fragmentShaderAddress, context.device, context.device.allocations
    modifies recorder
    ensures context.device.Valid() && context.device.PoolValid()
    ensures !spirvGiven ==>
      r == InvalidParameter && recorder.State() == old(recorder.State()) &&
      unchanged(context, context.device, context.device.allocations)
    ensures spirvGiven ==>
      r == ShaderAllocationResult(old(context.device.poolUsed), context.device.poolSize,
                                  old(context.device.allocationCount), vertexSize, fragmentSize)
    ensures spirvGiven ==> ShadersAllocated(context, vertexSize, fragmentSize, r)
    ensures spirvGiven && r == Success ==>
      recorder.State() == AddedAll(old(recorder.State()),
                                   ShaderCommands(CUBE_COMMANDS, context.vertexShaderAddress, vertexSize,
                                                  context.fragmentShaderAddress, fragmentSize))
    ensures r != Success ==> recorder.State() == old(recorder.State())
  {
    if !spirvGiven {
      return InvalidParameter;
    }
    r := AllocateShaders(context, vertexSize, fragmentSize);
    if r != Success {
      return r;
    }
    CopyAndRecordShaders(context.device, recorder, context.vertexShaderAddress, vertexSize,
                         context.fragmentShaderAddress, fragmentSize);
  }

  /**
   * The tail of `gibgo_load_shaders` once both shaders have memory: each is
   * copied through `map`/`unmap` (results ignored), then the two shader
   * commands are recorded.
   */
  method CopyAndRecordShaders(device: GpuDevice, recorder: CommandRecorder, vertexAddress: u64, vertexSize: u32,
                              fragmentAddress: u64, fragmentSize: u32)
    requires device.Valid()
    modifies recorder
    ensures recorder.State() == AddedAll(old(recorder.State()),
                                         ShaderCommands(CUBE_COMMANDS, vertexAddress, vertexSize,
                                                        fragmentAddress, fragmentSize))
  {
    var mapped, pointer := Map(device, vertexAddress, vertexSize as u64);
    if mapped == Success {
      var _ := Unmap(device, pointer, vertexSize as u64);
    }
    mapped, pointer := Map(device, fragmentAddress, fragmentSize as u64);
    if mapped == Success {
      var _ := Unmap(device, pointer, fragmentSize as u64);
    }
    AddCommands(recorder, ShaderCommands(CUBE_COMMANDS, vertexAddress, vertexSize, fragmentAddress, fragmentSize));
  }

  /**
   * The result of the two shader allocations on a pool with `used` bytes
   * and `count` slots taken: the vertex shader's, or else the fragment
   * shader's after the vertex shader took its aligned size and a slot.
   */
  function ShaderAllocationResult(used: u64, poolSize: u64, count: u32, vertexSize: u32, fragmentSize: u32)
    : GpuResult
  {
    var first := AllocateResult(vertexSize as u64, used, poolSize, count);
    if first != Success then first
    else AllocateResult(fragmentSize as u64, Wrap64(used as nat + AlignUp(vertexSize as u64)), poolSize,
                        Wrap32(count as nat + 1))
  }

  /**
   * Where the shader allocations leave the context and the pool: a failed
   * vertex allocation changes nothing; a successful one puts the shader at
   * the old VRAM offset; when both succeed the fragment shader follows it
   * and the pool and the slot count grow by both.
   */
  twostate predicate ShadersAllocated(context: Context, vertexSize: u32, fragmentSize: u32, r: GpuResult)
    reads context, context.device, context.device.allocations
  {
    var device := context.device;
    var vertexResult := AllocateResult(vertexSize as u64, old(device.poolUsed), device.poolSize,
                                       old(device.allocationCount));
    (vertexResult != Success ==>
       unchanged(device) && unchanged(device.allocations) &&
       context.vertexShaderAddress == old(context.vertexShaderAddress)) &&
    (vertexResult == Success ==>
       context.vertexShaderAddress == Wrap64(device.vramBase + old(device.vramAllocationOffset))) &&
    (r == Success ==>
       context.fragmentShaderAddress ==
         Wrap64(device.vramBase + old(device.vramAllocationOffset) + AlignUp(vertexSize as u64)) &&
       device.allocationCount as nat == old(device.allocationCount) as nat + 2 &&
       device.poolUsed as nat == old(device.poolUsed) as nat + AlignUp(vertexSize as u64) + AlignUp(fragmentSize as u64)) &&
    (r != Success ==> context.fragmentShaderAddress == old(context.fragmentShaderAddress))
  }

  /** The two allocations of `gibgo_load_shaders`, each address stored in the context once it exists. */
  method AllocateShaders(context: Context, vertexSize: u32, fragmentSize: u32) returns (r: GpuResult)
    requires context.device.Valid() && context.device.PoolValid()
    modifies context`vertexShaderAddress, context`fragmentShaderAddress, context.device, context.device.allocations
    ensures context.device.Valid() && context.device.PoolValid()
    ensures r == ShaderAllocationResult(old(context.device.poolUsed), context.device.poolSize,
                                        old(context.device.allocationCount), vertexSize, fragmentSize)
    ensures ShadersAllocated(context, vertexSize, fragmentSize, r)
  {
    var device := context.device;
    var address;
    r, address := AllocateFromPool(device, vertexSize as u64);
    if r != Success {
      return r;
    }
    context.vertexShaderAddress := address;
    r, address := AllocateFromPool(device, fragmentSize as u64);
    if r != Success {
      return r;
    }
    context.fragmentShaderAddress := address;
  }

  /**
   * `Allocate` seen from the pool counters only: the result, the address at
   * the old VRAM offset, and the growth of the pool and of the slot count.
   */
  method AllocateFromPool(device: GpuDevice, size: u64) returns (r: GpuResult, address: u64)
    requires device.Valid() && device.PoolValid()
    modifies device, device.allocations
    ensures device.Valid() && device.PoolValid()
    ensures r == AllocateResult(size, old(device.poolUsed), device.poolSize, old(device.allocationCount))
    ensures r != Success ==> unchanged(device) && unchanged(device.allocations)
    ensures r == Success ==>
      address == Wrap64(device.vramBase + old(device.vramAllocationOffset)) &&
      device.poolUsed as nat == old(device.poolUsed) as nat + AlignUp(size) &&
      device.allocationCount as nat == old(device.allocationCount) as nat + 1
  {
    r, address := Allocate(device, size);
  }

  /**
   * `submit_commands_to_hardware` of the cube: the software renderer runs
   * over the list first (it cannot fail), then the ring loop and the
   * register writes of `PushToRing`, and only a submission that did not
   * time out adds the command count to the `u64` statistics counter.
   * Nothing writes the fence register. The framebuffer ends as
   * `ExecuteCommands` leaves it.
   */
  method SubmitToHardware(device: GpuDevice, cmds: seq<Command>, valid: nat -> bool, backFacing: nat -> bool,
                          shade: Shader)
    returns (r: GpuResult, outcome: RenderOutcome)
    requires device.Valid()
    modifies device, device.framebuffer, device.ring, device.ring.buffer, device.registers
    ensures device.framebuffer[..] ==
      PaintedImage(ScanImage(old(device.framebuffer[..]), cmds), RenderedTriangles(outcome), shade)
    ensures RenderedTriangles(outcome) == ScanDrawn(old(device.allocations[..]), cmds, valid, backFacing)
    ensures (outcome == NotDrawn) <==> !Draws(Extract(INITIAL_STATE, cmds))
    ensures outcome.Rendered? ==>
      var s := Extract(INITIAL_STATE, cmds);
      outcome.drawn == Drawn(TriangleStarts(s.firstVertex as nat, s.vertexCount as nat), valid, backFacing, s.culling)
    ensures Pushed(device, cmds, r)
    ensures device.FenceValue() == old(device.FenceValue())
    ensures device.commandsSubmitted ==
      if r == Success then Wrap64(old(device.commandsSubmitted) + |cmds|) else old(device.commandsSubmitted)
    ensures device.fenceCounter == old(device.fenceCounter) && device.framesRendered == old(device.framesRendered)
  {
    var _, drawing := ExecuteCommands(device, cmds, valid, backFacing, shade);
    outcome := drawing;
    r := PushToRing(device, cmds);
    if r == Success {
      CountSubmitted(device, |cmds|, old(device.commandsSubmitted));
    }
  }

  /**
   * `gibgo_submit_commands` of the cube: `INVALID_PARAMETER` without
   * touching anything when no list is open; otherwise the recorded commands
   * go to `SubmitToHardware`, the list is freed whatever the outcome, and the
   * outcome is returned.
   */
  method SubmitCommands(device: GpuDevice, recorder: CommandRecorder, valid: nat -> bool, backFacing: nat -> bool,
                        shade: Shader)
    returns (r: GpuResult)
    requires device.Valid()
    modifies device, device.framebuffer, device.ring, device.ring.buffer, device.registers, recorder
    ensures !old(recorder.open) ==>
      r == InvalidParameter && recorder.State() == old(recorder.State()) && device.Valid() &&
      unchanged(device, device.ring, device.registers, device.framebuffer) && unchanged(old(device.ring.buffer))
    ensures old(recorder.open) ==>
      RenderedFrame(device.framebuffer[..], old(device.framebuffer[..]), old(device.allocations[..]),
                    old(recorder.commands), valid, backFacing, shade) &&
      Pushed(device, old(recorder.commands), r) &&
      device.commandsSubmitted ==
        (if r == Success then Wrap64(old(device.commandsSubmitted) + |old(recorder.commands)|)
         else old(device.commandsSubmitted)) &&
      recorder.State() == Recording(false, [], 0)
    ensures device.FenceValue() == old(device.FenceValue())
    ensures device.fenceCounter == old(device.fenceCounter) && device.framesRendered == old(device.framesRendered)
  {
    if !recorder.open {
      return InvalidParameter;
    }
    var outcome;
    r, outcome := SubmitToHardware(device, recorder.commands, valid, backFacing, shade);
    ResetList(recorder);
  }
}
