// The public face of the graphics layer, shared by both `gibgo_graphics.c`
// variants: the five public result codes, the total mapping from the
// internal ones, the system record behind the opaque handle, and the two
// entry points whose bodies the variants have in common (waiting for the
// frame fence and reading the statistics).
module GraphicsApi {
  import opened MachineWords
  import opened GpuCore
  import opened CommandList
  import opened GpuDevices
  import opened FenceWait
  import opened FrameRecording

  /** `GibgoGraphicsResult`. */
  datatype ApiResult = ApiSuccess | InitializationFailed | DeviceLost | ApiOutOfMemory | ApiInvalidParameter

  /** The internal codes that mean the hardware could not be found, opened or mapped. */
  predicate IsSetupFailure(r: GpuResult)
  {
    r == DeviceNotFound || r == DeviceAccessDenied || r == MemoryMapFailed
  }

  /**
   * `convert_result`: every internal code has exactly one public code;
   * success stays success, setup failures become `INITIALIZATION_FAILED`,
   * running out of memory stays so, a timeout or a failed command means the
   * device is lost, and every other code is an invalid parameter.
   */
  function ConvertResult(r: GpuResult): (a: ApiResult)
    ensures a == ApiSuccess <==> r == Success
    ensures a == InitializationFailed <==> IsSetupFailure(r)
    ensures a == ApiOutOfMemory <==> r == OutOfMemory
    ensures a == DeviceLost <==> (r == GpuTimeout || r == CommandFailed)
    ensures a == ApiInvalidParameter <==> (r == InvalidParameter || r == DisplayFailed)
  {
    match r
    case Success => ApiSuccess
    case DeviceNotFound => InitializationFailed
    case DeviceAccessDenied => InitializationFailed
    case MemoryMapFailed => InitializationFailed
    case OutOfMemory => ApiOutOfMemory
    case GpuTimeout => DeviceLost
    case CommandFailed => DeviceLost
    case _ => ApiInvalidParameter
  }

  /**
   * The list `gibgo_end_frame_and_present` hands to the submission: the
   * frame's records, then the present and fence records as far as the list
   * takes them.
   */
  function PresentedList(s: Recording, codes: CommandSet, framebuffer: u64, format: u32, fence: u32): seq<Command>
  {
    AddedAll(s, PresentCommands(codes, framebuffer, format, fence)).commands
  }

  /**
   * On an open list with room for two more records, the submitted list is
   * the frame's records followed by exactly the present and the fence
   * records; with no list open nothing is recorded, and recording never
   * opens or closes the list.
   */
  lemma PresentedListShape(s: Recording, codes: CommandSet, framebuffer: u64, format: u32, fence: u32)
    ensures s.open && |s.commands| + 2 <= s.maxCommands ==>
      PresentedList(s, codes, framebuffer, format, fence) ==
        s.commands + [Command(codes.present, AddressLow(framebuffer), AddressHigh(framebuffer), format),
                      Command(codes.fence, fence, 0, 0)]
    ensures !s.open ==> AddedAll(s, PresentCommands(codes, framebuffer, format, fence)) == s
    ensures AddedAll(s, PresentCommands(codes, framebuffer, format, fence)).open == s.open
  {
    var cs := PresentCommands(codes, framebuffer, format, fence);
    AddedAllKeepsShape(s, cs);
    if s.open && |s.commands| + 2 <= s.maxCommands {
      AddedAllAppends(s, cs);
    }
    if !s.open {
      AddedAllClosed(s, cs);
    }
  }

  /**
   * `GibgoGraphicsSystem`: the device, the context and the command list the
   * system drives, the frame size it was created with, the count of frames
   * presented through it and whether initialisation finished.
   */
  class GraphicsSystem {
    const device: GpuDevice
    const context: Context
    const recorder: CommandRecorder
    var frameWidth: u32
    var frameHeight: u32
    var currentFrame: u32
    var isInitialized: bool

    /** The context belongs to the system's device. */
    predicate Wired()
    {
      context.device == device
    }

    /** The fields set at the end of `gibgo_initialize_graphics`. */
    constructor (device: GpuDevice, context: Context, recorder: CommandRecorder, width: u32, height: u32)
      ensures this.device == device && this.context == context && this.recorder == recorder
      ensures frameWidth == width && frameHeight == height
      ensures currentFrame == 0 && isInitialized
    {
      this.device := device;
      this.context := context;
      this.recorder := recorder;
      frameWidth := width;
      frameHeight := height;
      currentFrame := 0;
      isInitialized := true;
    }
  }

  /**
   * `gibgo_wait_for_frame_completion`: on an initialised system, success
   * exactly when the fence register has reached the context's frame fence,
   * device lost otherwise; an uninitialised system is an invalid parameter.
   * Nothing changes.
   */
  method WaitForFrameCompletion(system: GraphicsSystem) returns (r: ApiResult)
    requires system.Wired() && system.device.Valid()
    ensures r == ApiSuccess <==> system.isInitialized && system.device.FenceValue() >= system.context.frameFence
    ensures r != ApiSuccess ==> r == (if system.isInitialized then DeviceLost else ApiInvalidParameter)
  {
    if !system.isInitialized {
      return ApiInvalidParameter;
    }
    var result := WaitForCompletion(system.device, system.context.frameFence);
    r := ConvertResult(result);
  }

  /**
   * `gibgo_get_frame_statistics`: on an initialised system with both
   * outputs present, the device's frame and command counters, unchanged;
   * otherwise an invalid parameter and nothing written.
   */
  method GetFrameStatistics(system: GraphicsSystem, hasFramesOut: bool, hasCommandsOut: bool)
    returns (r: ApiResult, stats: Option<(u64, u64)>)
    ensures r == ApiSuccess <==> system.isInitialized && hasFramesOut && hasCommandsOut
    ensures r != ApiSuccess ==> r == ApiInvalidParameter && stats == None
    ensures r == ApiSuccess ==> stats == Some((system.device.framesRendered, system.device.commandsSubmitted))
  {
    if !system.isInitialized || !hasFramesOut || !hasCommandsOut {
      return ApiInvalidParameter, None;
    }
    return ApiSuccess, Some((system.device.framesRendered, system.device.commandsSubmitted));
  }
}
