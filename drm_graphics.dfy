// The `directDrm` rotating-cube facade (`gibgo_graphics.c`): the end of
// initialisation, presenting a frame through the cube's command set and
// submission, and handing uniform data to the shaders through the pool
// allocator.
module DrmGraphics {
  import opened MachineWords
  import opened GpuCore
  import opened CommandRingModel
  import opened CommandList
  import opened GpuDevices
  import opened RingSubmission
  import opened FrameRecording
  import opened DrmMemory
  import opened CubeCommands
  import opened GraphicsApi
  import opened CubeExecution
  import opened Rasteriser

  /**
   * The end of `gibgo_initialize_graphics`, once the device and the context
   * exist: face culling is requested (before any list is open, so the
   * command is refused and nothing is recorded; the result only picks a log
   * line), then the system record is filled in with frame 0 and marked
   * initialised, and the answer is `SUCCESS`.
   */
  method FinishInitialization(device: GpuDevice, context: Context, recorder: CommandRecorder,
                              width: u32, height: u32)
    returns (r: ApiResult, system: GraphicsSystem)
    requires context.device == device
    modifies recorder
    ensures r == ApiSuccess && fresh(system) && system.Wired()
    ensures system.device == device && system.context == context && system.recorder == recorder
    ensures system.frameWidth == width && system.frameHeight == height
    ensures system.currentFrame == 0 && system.isInitialized
    ensures recorder.State() == Added(old(recorder.State()), CullingCommand(true))
    ensures !old(recorder.open) ==> recorder.State() == old(recorder.State())
  {
    var _ := EnableFaceCulling(recorder, true);
    system := new GraphicsSystem(device, context, recorder, width, height);
    r := ApiSuccess;
  }

  /**
   * `gibgo_end_frame_and_present`: an uninitialised system is an invalid
   * parameter and nothing changes. Otherwise the present and fence records
   * are added (the fence counter, the context's frame fence and the frame
   * count move on whether or not they were recorded); with no list open the
   * end fails with `INVALID_PARAMETER` and nothing is submitted; with one
   * open the list is submitted and freed, and the frame counter moves on
   * exactly when the submission succeeded, a ring timeout being a lost
   * device.
   */
  method EndFrameAndPresent(system: GraphicsSystem, valid: nat -> bool, backFacing: nat -> bool, shade: Shader)
    returns (r: ApiResult)
    requires system.Wired() && system.device.Valid()
    modifies system, system.context, system.device, system.device.framebuffer, system.device.ring,
             system.device.ring.buffer, system.device.registers, system.recorder
    ensures !old(system.isInitialized) ==>
      r == ApiInvalidParameter &&
      unchanged(system, system.context, system.device, system.recorder, system.device.ring) &&
      unchanged(system.device.framebuffer, system.device.registers, system.device.ring.buffer)
    ensures old(system.isInitialized) ==>
      system.device.fenceCounter == Wrap32(old(system.device.fenceCounter) + 1) &&
      system.context.frameFence == system.device.fenceCounter &&
      system.device.framesRendered == Wrap64(old(system.device.framesRendered) + 1) &&
      system.device.FenceValue() == old(system.device.FenceValue())
    ensures old(system.isInitialized) && !old(system.recorder.open) ==>
      r == ApiInvalidParameter && system.currentFrame == old(system.currentFrame) &&
      system.recorder.State() == old(system.recorder.State()) &&
      unchanged(system.device.ring, system.device.registers, system.device.framebuffer) &&
      unchanged(old(system.device.ring.buffer)) &&
      system.device.commandsSubmitted == old(system.device.commandsSubmitted)
    ensures old(system.isInitialized) && old(system.recorder.open) ==>
      var cmds := PresentedList(old(system.recorder.State()), CUBE_COMMANDS, system.context.framebufferAddress,
                                system.context.framebufferFormat, system.context.frameFence);
      (r == ApiSuccess || r == DeviceLost) &&
      Pushed(system.device, cmds, if r == ApiSuccess then Success else GpuTimeout) &&
      system.device.commandsSubmitted ==
        (if r == ApiSuccess then Wrap64(old(system.device.commandsSubmitted) + |cmds|)
         else old(system.device.commandsSubmitted)) &&
      system.recorder.State() == Recording(false, [], 0) &&
      system.currentFrame == (if r == ApiSuccess then Wrap32(old(system.currentFrame) + 1) else old(system.currentFrame))
    ensures old(system.isInitialized) && old(system.recorder.open) ==>
      RenderedFrame(system.device.framebuffer[..], old(system.device.framebuffer[..]), old(system.device.allocations[..]),
                    PresentedList(old(system.recorder.State()), CUBE_COMMANDS, system.context.framebufferAddress,
                                  system.context.framebufferFormat, system.context.frameFence),
                    valid, backFacing, shade)
  {
    if !system.isInitialized {
      return ApiInvalidParameter;
    }
    var context := system.context;
    var device := system.device;
    var recorder := system.recorder;
    // Presenting only records and counts; it cannot fail.
    PresentedListShape(recorder.State(), CUBE_COMMANDS, context.framebufferAddress, context.framebufferFormat,
                       Wrap32(device.fenceCounter + 1));
    ghost var frame := device.framebuffer[..];
    ghost var slots := device.allocations[..];
    var _ := PresentFrame(CUBE_COMMANDS, context, recorder);
    assert device.framebuffer[..] == frame && device.allocations[..] == slots;
    r := EndAndSubmit(system, valid, backFacing, shade);
  }

  /**
   * The rest of `gibgo_end_frame_and_present` once the frame is presented:
   * ending a list that is not open fails with `INVALID_PARAMETER` and
   * nothing is submitted; an open list is submitted and freed, and the frame
   * counter moves on exactly when the submission succeeded, a ring timeout
   * being a lost device. The fences and the frame count stay.
   */
  method EndAndSubmit(system: GraphicsSystem, valid: nat -> bool, backFacing: nat -> bool, shade: Shader) returns (r: ApiResult)
    requires system.Wired() && system.device.Valid()
    modifies system, system.device, system.device.framebuffer, system.device.ring, system.device.ring.buffer,
             system.device.registers, system.recorder
    ensures system.device.fenceCounter == old(system.device.fenceCounter) &&
            system.device.framesRendered == old(system.device.framesRendered) &&
            system.device.FenceValue() == old(system.device.FenceValue())
    ensures !old(system.recorder.open) ==>
      r == ApiInvalidParameter && system.currentFrame == old(system.currentFrame) &&
      system.recorder.State() == old(system.recorder.State()) &&
      unchanged(system.device.ring, system.device.registers, system.device.framebuffer) &&
      unchanged(old(system.device.ring.buffer)) &&
      system.device.commandsSubmitted == old(system.device.commandsSubmitted)
    ensures old(system.recorder.open) ==>
      (r == ApiSuccess || r == DeviceLost) &&
      Pushed(system.device, old(system.recorder.commands), if r == ApiSuccess then Success else GpuTimeout) &&
      system.device.commandsSubmitted ==
        (if r == ApiSuccess then Wrap64(old(system.device.commandsSubmitted) + |old(system.recorder.commands)|)
         else old(system.device.commandsSubmitted)) &&
      system.recorder.State() == Recording(false, [], 0) &&
      system.currentFrame == (if r == ApiSuccess then Wrap32(old(system.currentFrame) + 1) else old(system.currentFrame))
    ensures old(system.recorder.open) ==>
      RenderedFrame(system.device.framebuffer[..], old(system.device.framebuffer[..]),
                    old(system.device.allocations[..]), old(system.recorder.commands), valid, backFacing, shade)
  {
    var result := EndCommands(system.recorder);
    if result != Success {
      return ConvertResult(result);
    }
    result := SubmitCommands(system.device, system.recorder, valid, backFacing, shade);
    if result != Success {
      return ConvertResult(result);
    }
    system.currentFrame := Wrap32(system.currentFrame + 1);
    return ApiSuccess;
  }

  /**
   * `gibgo_set_uniform_buffer_data(data, size)`: an uninitialised system or
   * missing data is an invalid parameter. Otherwise a fresh pool buffer of
   * `size` bytes is allocated on every call (its failure is returned and
   * nothing changes); the data is copied through a mapping, with the
   * results of map and unmap ignored, and the uniform-buffer command of the
   * new buffer is recorded, its result returned.
   */
  method SetUniformBufferData(system: GraphicsSystem, hasData: bool, size: u32) returns (r: ApiResult)
    requires system.Wired() && system.device.Valid() && system.device.PoolValid()
    modifies system.context`uniformBufferAddress, system.context`uniformBufferSize
    modifies system.device, system.device.allocations, system.recorder
    ensures system.device.Valid() && system.device.PoolValid()
    ensures !old(system.isInitialized) || !hasData ==>
      r == ApiInvalidParameter &&
      unchanged(system.context, system.device, system.device.allocations, system.recorder)
    ensures old(system.isInitialized) && hasData ==>
      var allocation := AllocateResult(size as u64, old(system.device.poolUsed), system.device.poolSize,
                                       old(system.device.allocationCount));
      (allocation != Success ==>
         r == ConvertResult(allocation) &&
         unchanged(system.context, system.device, system.device.allocations, system.recorder)) &&
      (allocation == Success ==>
         AllocatedFrom(system.device, size as u64, system.context.uniformBufferAddress) &&
         system.context.uniformBufferSize == size &&
         r == ConvertResult(AddResult(old(system.recorder.State()),
                                      UniformCommand(system.context.uniformBufferAddress, size))) &&
         system.recorder.State() ==
           Added(old(system.recorder.State()), UniformCommand(system.context.uniformBufferAddress, size)))
    ensures (old(system.isInitialized) && hasData && size != 0 &&
             old(system.device.allocationCount) as nat >= MAX_ALLOCATIONS) ==> r == ApiOutOfMemory
  {
    if !system.isInitialized || !hasData {
      return ApiInvalidParameter;
    }
    var context := system.context;
    var device := system.device;
    var result, address := Allocate(device, size as u64);
    if result != Success {
      return ConvertResult(result);
    }
    var _ := CopyThroughMapping(device, address, size as u64);
    result := SetUniformBuffer(context, system.recorder, address, size);
    r := ConvertResult(result);
  }
}
