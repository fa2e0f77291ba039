// The submission half of the `directDrm` triangle's command layer:
// `submit_commands_to_hardware`, `gibgo_submit_commands` and
// `gibgo_load_shaders`. The recorders shared with the other variants are in
// `FrameRecording`, the fence wait in `FenceWait`.
module TriangleCommands {
  import opened MachineWords
  import opened GpuCore
  import opened CommandRingModel
  import opened CommandList
  import opened GpuDevices
  import opened RingSubmission
  import opened FrameRecording

  /**
   * `submit_commands_to_hardware`: the ring loop and the register writes of
   * `PushToRing`; only a submission that did not time out adds the command
   * count to the `u64` statistics counter.
   */
  method SubmitToHardware(device: GpuDevice, cmds: seq<Command>) returns (r: GpuResult)
    requires device.Valid()
    modifies device, device.ring, device.ring.buffer, device.registers
    ensures Pushed(device, cmds, r)
    ensures device.commandsSubmitted ==
      if r == Success then Wrap64(old(device.commandsSubmitted) + |cmds|) else old(device.commandsSubmitted)
    ensures device.fenceCounter == old(device.fenceCounter) && device.framesRendered == old(device.framesRendered)
  {
    r := PushToRing(device, cmds);
    if r == Success {
      CountSubmitted(device, |cmds|, old(device.commandsSubmitted));
    }
  }

  /**
   * `gibgo_submit_commands`: `INVALID_PARAMETER` without touching anything
   * when no list is open; otherwise the recorded commands go to
   * `SubmitToHardware`, the list is freed whatever the outcome, and the
   * outcome is returned.
   */
  method SubmitCommands(device: GpuDevice, recorder: CommandRecorder) returns (r: GpuResult)
    requires device.Valid()
    modifies device, device.ring, device.ring.buffer, device.registers, recorder
    ensures !old(recorder.open) ==>
      r == InvalidParameter && recorder.State() == old(recorder.State()) && device.Valid() &&
      unchanged(device, device.ring, device.registers) && unchanged(old(device.ring.buffer))
    ensures old(recorder.open) ==>
      Pushed(device, old(recorder.commands), r) &&
      device.commandsSubmitted ==
        (if r == Success then Wrap64(old(device.commandsSubmitted) + |old(recorder.commands)|)
         else old(device.commandsSubmitted)) &&
      recorder.State() == Recording(false, [], 0)
    ensures device.fenceCounter == old(device.fenceCounter) && device.framesRendered == old(device.framesRendered)
  {
    if !recorder.open {
      return InvalidParameter;
    }
    r := SubmitToHardware(device, recorder.commands);
    ResetList(recorder);
  }

  /** What the allocator, whose source is not part of this model, answered for one shader. */
  datatype AllocatorAnswer = AllocatorAnswer(result: GpuResult, address: u64)

  /**
   * `gibgo_load_shaders`: `INVALID_PARAMETER` with nothing changed unless
   * both SPIR-V pointers are given (`spirvGiven`); then the first failing
   * allocation is returned and
   * nothing is recorded; after two successful ones the context holds both
   * shader addresses (which the mapping and copy do not change) and the two
   * shader commands with the addresses split in halves and the sizes are
   * recorded, their results ignored.
   */
  method LoadShaders(context: Context, recorder: CommandRecorder, spirvGiven: bool, vertexSize: u32, fragmentSize: u32,
                     vertexAllocation: AllocatorAnswer, fragmentAllocation: AllocatorAnswer)
    returns (r: GpuResult)
    modifies context, recorder
    ensures !spirvGiven ==> r == InvalidParameter && recorder.State() == old(recorder.State()) && unchanged(context)
    ensures spirvGiven && vertexAllocation.result != Success ==>
      r == vertexAllocation.result && recorder.State() == old(recorder.State()) &&
      context.vertexShaderAddress == old(context.vertexShaderAddress) &&
      context.fragmentShaderAddress == old(context.fragmentShaderAddress)
    ensures spirvGiven && vertexAllocation.result == Success && fragmentAllocation.result != Success ==>
      r == fragmentAllocation.result && recorder.State() == old(recorder.State()) &&
      context.vertexShaderAddress == vertexAllocation.address &&
      context.fragmentShaderAddress == old(context.fragmentShaderAddress)
    ensures spirvGiven && vertexAllocation.result == Success && fragmentAllocation.result == Success ==>
      r == Success &&
      context.vertexShaderAddress == vertexAllocation.address &&
      context.fragmentShaderAddress == fragmentAllocation.address &&
      recorder.State() == AddedAll(old(recorder.State()), ShaderCommands(BASIC_COMMANDS, vertexAllocation.address, vertexSize,
                                                                         fragmentAllocation.address, fragmentSize))
    ensures context.vertexBufferAddress == old(context.vertexBufferAddress) &&
            context.framebufferAddress == old(context.framebufferAddress) &&
            context.frameFence == old(context.frameFence)
  {
    if !spirvGiven {
      return InvalidParameter;
    }
    if vertexAllocation.result != Success {
      return vertexAllocation.result;
    }
    context.vertexShaderAddress := vertexAllocation.address;
    if fragmentAllocation.result != Success {
      return fragmentAllocation.result;
    }
    context.fragmentShaderAddress := fragmentAllocation.address;
    AddCommands(recorder, ShaderCommands(BASIC_COMMANDS, context.vertexShaderAddress, vertexSize,
                                         context.fragmentShaderAddress, fragmentSize));
    return Success;
  }
}
