// The recorders every variant has in the same form, over that variant's
// command numbering: `gibgo_set_viewport`, `gibgo_draw_primitives` (the
// `_internal` one of the `directDrm` cube) and `gibgo_present_frame`. They
// ignore the results of `add_command`, so a command that does not fit or a
// list that is not open is dropped silently and the recorder still reports
// `SUCCESS` (except `gibgo_set_viewport`, which returns the result).
module FrameRecording {
  import opened MachineWords
  import opened GpuCore
  import opened CommandList
  import opened GpuDevices

  /** The codes one variant gives the commands all variants share. */
  datatype CommandSet = CommandSet(
    viewport: u32, vertexBuffer: u32, vertexShader: u32, fragmentShader: u32,
    clear: u32, draw: u32, present: u32, fence: u32)

  /** Numbering of the `directDrm` triangle and of the `gibgoGraphics` cube (`GPU_CMD_SET_VIEWPORT = 1` ... `GPU_CMD_FENCE = 8`). */
  const BASIC_COMMANDS: CommandSet := CommandSet(1, 2, 3, 4, 5, 6, 7, 8)
  /** Numbering of the `directDrm` cube, renumbered around the uniform, depth and culling commands. */
  const CUBE_COMMANDS: CommandSet := CommandSet(1, 2, 3, 4, 8, 9, 0xA, 0xB)

  /** No two commands of a set share a code, so an interpreter can tell them apart. */
  predicate Distinct(codes: CommandSet)
  {
    var all := [codes.viewport, codes.vertexBuffer, codes.vertexShader, codes.fragmentShader,
                  codes.clear, codes.draw, codes.present, codes.fence];
    forall i, j :: 0 <= i < j < |all| ==> all[i] != all[j]
  }

  /** Both numberings are unambiguous. */
  lemma NumberingsDistinct()
    ensures Distinct(BASIC_COMMANDS) && Distinct(CUBE_COMMANDS)
  {
  }

  /** `SET_VERTEX_BUFFER(lo, hi, stride)`, `CLEAR_FRAMEBUFFER(0, 0, 0)`, `DRAW_PRIMITIVES(count, first, 0)`. */
  function DrawCommands(codes: CommandSet, vertexBuffer: u64, stride: u32, count: u32, first: u32): seq<Command>
  {
    [Command(codes.vertexBuffer, AddressLow(vertexBuffer), AddressHigh(vertexBuffer), stride),
     Command(codes.clear, 0, 0, 0),
     Command(codes.draw, count, first, 0)]
  }

  /** `PRESENT_FRAME(lo, hi, format)` of the framebuffer, then `FENCE(fence, 0, 0)`. */
  function PresentCommands(codes: CommandSet, framebuffer: u64, format: u32, fence: u32): seq<Command>
  {
    [Command(codes.present, AddressLow(framebuffer), AddressHigh(framebuffer), format),
     Command(codes.fence, fence, 0, 0)]
  }

  /** `SET_VERTEX_SHADER(lo, hi, size)` and `SET_FRAGMENT_SHADER(lo, hi, size)` of the two shader buffers. */
  function ShaderCommands(codes: CommandSet, vertexShader: u64, vertexSize: u32, fragmentShader: u64, fragmentSize: u32)
    : seq<Command>
  {
    [Command(codes.vertexShader, AddressLow(vertexShader), AddressHigh(vertexShader), vertexSize),
     Command(codes.fragmentShader, AddressLow(fragmentShader), AddressHigh(fragmentShader), fragmentSize)]
  }

  /**
   * On an open list with room for them, drawing appends the vertex-buffer
   * command, the clear and the draw, in that order, and the interpreter
   * reads back from the first one exactly the context's vertex buffer.
   */
  lemma DrawRecords(s: Recording, codes: CommandSet, vertexBuffer: u64, stride: u32, count: u32, first: u32)
    requires s.open && |s.commands| + 3 <= s.maxCommands
    ensures var cs := AddedAll(s, DrawCommands(codes, vertexBuffer, stride, count, first)).commands;
      |cs| == |s.commands| + 3 && cs[..|s.commands|] == s.commands &&
      cs[|s.commands|].kind == codes.vertexBuffer &&
      JoinAddress(cs[|s.commands|].param0, cs[|s.commands|].param1) == vertexBuffer &&
      cs[|s.commands|].param2 == stride &&
      cs[|s.commands| + 1] == Command(codes.clear, 0, 0, 0) &&
      cs[|s.commands| + 2] == Command(codes.draw, count, first, 0)
  {
    AddedAllAppends(s, DrawCommands(codes, vertexBuffer, stride, count, first));
    AddressRoundTrip(vertexBuffer);
  }

  /**
   * On an open list with room for them, presenting makes the list end with
   * the present command naming the framebuffer and then the fence command
   * carrying `fence`; with a full or closed list nothing is recorded.
   */
  lemma PresentRecords(s: Recording, codes: CommandSet, framebuffer: u64, format: u32, fence: u32)
    requires WithinBounds(s)
    ensures s.open && |s.commands| + 2 <= s.maxCommands ==>
      var cs := AddedAll(s, PresentCommands(codes, framebuffer, format, fence)).commands;
      cs == s.commands + PresentCommands(codes, framebuffer, format, fence) &&
      cs[|cs| - 1] == Command(codes.fence, fence, 0, 0) &&
      JoinAddress(cs[|cs| - 2].param0, cs[|cs| - 2].param1) == framebuffer
    ensures !s.open || |s.commands| >= s.maxCommands ==>
      AddedAll(s, PresentCommands(codes, framebuffer, format, fence)) == s
  {
    if s.open && |s.commands| + 2 <= s.maxCommands {
      AddedAllAppends(s, PresentCommands(codes, framebuffer, format, fence));
      AddressRoundTrip(framebuffer);
    } else if !s.open {
      AddedAllClosed(s, PresentCommands(codes, framebuffer, format, fence));
    } else if |s.commands| >= s.maxCommands {
      AddedAllClosedFull(s, PresentCommands(codes, framebuffer, format, fence));
    }
  }

  /**
   * `gibgo_set_viewport(width, height)`: the context's framebuffer size
   * becomes `width x height`, then `SET_VIEWPORT(width, height, 0)` is
   * recorded and its result returned.
   */
  method SetViewport(codes: CommandSet, context: Context, recorder: CommandRecorder, width: u32, height: u32)
    returns (r: GpuResult)
    modifies context, recorder
    ensures context.framebufferWidth == width && context.framebufferHeight == height
    ensures r == AddResult(old(recorder.State()), Command(codes.viewport, width, height, 0))
    ensures recorder.State() == Added(old(recorder.State()), Command(codes.viewport, width, height, 0))
    ensures context.framebufferAddress == old(context.framebufferAddress) &&
            context.vertexBufferAddress == old(context.vertexBufferAddress) &&
            context.frameFence == old(context.frameFence) &&
            context.currentFrameIndex == old(context.currentFrameIndex)
  {
    context.framebufferWidth := width;
    context.framebufferHeight := height;
    r := AddCommand(recorder, Command(codes.viewport, width, height, 0));
  }

  /**
   * `gibgo_draw_primitives(count, first)`: records the context's vertex
   * buffer with its stride, a black clear and the draw; always `SUCCESS`.
   */
  method DrawPrimitives(codes: CommandSet, context: Context, recorder: CommandRecorder, count: u32, first: u32)
    returns (r: GpuResult)
    modifies recorder
    ensures r == Success
    ensures recorder.State() ==
      AddedAll(old(recorder.State()), DrawCommands(codes, context.vertexBufferAddress, context.vertexBufferStride, count, first))
  {
    AddCommands(recorder, DrawCommands(codes, context.vertexBufferAddress, context.vertexBufferStride, count, first));
    return Success;
  }

  /**
   * `gibgo_present_frame`: records the present command for the context's
   * framebuffer, bumps the device's `u32` fence counter and makes the new
   * value the frame's fence, records the fence command with it, and bumps
   * the frame index and the device's frame count, whatever `add_command`
   * returned; always `SUCCESS`.
   */
  method PresentFrame(codes: CommandSet, context: Context, recorder: CommandRecorder) returns (r: GpuResult)
    modifies context, context.device, recorder
    ensures r == Success
    ensures context.device.fenceCounter == Wrap32(old(context.device.fenceCounter) + 1)
    ensures context.frameFence == context.device.fenceCounter
    ensures recorder.State() ==
      AddedAll(old(recorder.State()), PresentCommands(codes, context.framebufferAddress, context.framebufferFormat,
                                                       context.frameFence))
    ensures context.currentFrameIndex == Wrap32(old(context.currentFrameIndex) + 1)
    ensures context.device.framesRendered == Wrap64(old(context.device.framesRendered) + 1)
    ensures context.framebufferAddress == old(context.framebufferAddress) &&
            context.framebufferFormat == old(context.framebufferFormat) &&
            context.framebufferWidth == old(context.framebufferWidth) &&
            context.framebufferHeight == old(context.framebufferHeight) &&
            context.vertexBufferAddress == old(context.vertexBufferAddress) &&
            context.vertexBufferStride == old(context.vertexBufferStride) &&
            context.vertexCount == old(context.vertexCount)
    ensures context.device.commandsSubmitted == old(context.device.commandsSubmitted) &&
            context.device.vramAllocationOffset == old(context.device.vramAllocationOffset) &&
            context.device.poolUsed == old(context.device.poolUsed) &&
            context.device.allocationCount == old(context.device.allocationCount) &&
            context.device.slotOffsets == old(context.device.slotOffsets)
  {
    var device := context.device;
    ghost var s0 := recorder.State();
    var present := Command(codes.present, AddressLow(context.framebufferAddress),
                           AddressHigh(context.framebufferAddress), context.framebufferFormat);
    var _ := AddCommand(recorder, present);
    device.fenceCounter := Wrap32(device.fenceCounter + 1);
    context.frameFence := device.fenceCounter;
    var fence := Command(codes.fence, context.frameFence, 0, 0);
    var _ := AddCommand(recorder, fence);
    context.currentFrameIndex := Wrap32(context.currentFrameIndex + 1);
    device.framesRendered := Wrap64(device.framesRendered + 1);
    assert [present, fence][1..] == [fence] && [fence][1..] == [];
    assert AddedAll(s0, [present, fence]) == AddedAll(Added(s0, present), [fence]);
    assert PresentCommands(codes, context.framebufferAddress, context.framebufferFormat, context.frameFence)
      == [present, fence];
    assert AddedAll(Added(s0, present), [fence]) == AddedAll(Added(Added(s0, present), fence), []);
    r := Success;
  }
}
