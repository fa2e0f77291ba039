// The integer skeleton of the `directDrm` cube's software execution
// (`execute_3d_cube_rendering` and `render_3d_cube_software`): the state the
// recorded commands set, the framebuffer clear, when drawing happens, and
// the loop that steps through the vertex buffer three vertices at a time.
// Vertex transformation, clipping, the back-face test and the rasteriser
// are floating-point code; the model takes their verdicts as functions.
module CubeExecution {
  import opened MachineWords
  import opened Rasteriser
  import opened GpuCore
  import opened GpuDevices
  import opened GpuDeviceInit
  import opened DrmMemory
  import opened FrameRecording

  /** The commands only the `directDrm` cube has. */
  const SET_UNIFORM_BUFFER: u32 := 5
  const ENABLE_DEPTH_TEST: u32 := 6
  const ENABLE_FACE_CULLING: u32 := 7

  /** The colour a clear command writes. */
  const CLEAR_COLOR: u32 := 0xFF111111
  /** `sizeof(GibgoVertex)` and `sizeof(GibgoUniformBuffer)`. */
  const VERTEX_BYTES: u64 := 32
  const UNIFORM_BUFFER_BYTES: u64 := 288

  /** The rendering state the command list is scanned for. */
  datatype RenderState = RenderState(
    vertexBuffer: u64, uniformBuffer: u64, vertexCount: u32, firstVertex: u32,
    culling: bool, cleared: bool)

  /** Before the scan: no buffers, nothing to draw, culling on, nothing cleared. */
  const INITIAL_STATE: RenderState := RenderState(0, 0, 0, 0, true, false)

  /** One command of the scan; the commands not listed are skipped. */
  function Step(s: RenderState, c: Command): RenderState
  {
    if c.kind == SET_UNIFORM_BUFFER then s.(uniformBuffer := JoinAddress(c.param0, c.param1))
    else if c.kind == CUBE_COMMANDS.vertexBuffer then s.(vertexBuffer := JoinAddress(c.param0, c.param1))
    else if c.kind == CUBE_COMMANDS.draw then s.(vertexCount := c.param0, firstVertex := c.param1)
    else if c.kind == ENABLE_FACE_CULLING then s.(culling := c.param0 != 0)
    else if c.kind == CUBE_COMMANDS.clear then s.(cleared := true)
    else s
  }

  /** The state after scanning `cmds` in order from `s`. */
  function Extract(s: RenderState, cmds: seq<Command>): RenderState
    decreases |cmds|
  {
    if cmds == [] then s else Step(Extract(s, cmds[..|cmds| - 1]), cmds[|cmds| - 1])
  }

  /** A command the scan reacts to. */
  predicate Interpreted(c: Command)
  {
    c.kind in {SET_UNIFORM_BUFFER, CUBE_COMMANDS.vertexBuffer, CUBE_COMMANDS.draw, ENABLE_FACE_CULLING,
               CUBE_COMMANDS.clear}
  }

  /** Drawing happens only with a vertex buffer and a positive vertex count. */
  predicate Draws(s: RenderState)
  {
    s.vertexBuffer != 0 && s.vertexCount > 0
  }

  /** Scanning two lists one after the other is scanning their concatenation. */
  lemma {:induction false} ExtractAppend(s: RenderState, a: seq<Command>, b: seq<Command>)
    ensures Extract(s, a + b) == Extract(Extract(s, a), b)
    decreases |b|
  {
    if b == [] {
      assert a + b == a;
    } else {
      assert (a + b)[..|a + b| - 1] == a + b[..|b| - 1];
      ExtractAppend(s, a, b[..|b| - 1]);
    }
  }

  /** Commands the scan does not react to leave the state as it was. */
  lemma {:induction false} SkippedCommandsKeepState(s: RenderState, cmds: seq<Command>)
    requires forall i :: 0 <= i < |cmds| ==> !Interpreted(cmds[i])
    ensures Extract(s, cmds) == s
    decreases |cmds|
  {
    if cmds != [] {
      SkippedCommandsKeepState(s, cmds[..|cmds| - 1]);
    }
  }

  /**
   * Later commands override earlier ones: after a vertex-buffer command that
   * no later one replaces, the state holds that command's address.
   */
  lemma {:induction false} LastVertexBufferWins(s: RenderState, before: seq<Command>, c: Command, after: seq<Command>)
    requires c.kind == CUBE_COMMANDS.vertexBuffer
    requires forall i :: 0 <= i < |after| ==> after[i].kind != CUBE_COMMANDS.vertexBuffer
    ensures Extract(s, before + [c] + after).vertexBuffer == JoinAddress(c.param0, c.param1)
    decreases |after|
  {
    if after == [] {
      assert before + [c] + after == before + [c];
      assert (before + [c])[..|before + [c]| - 1] == before;
    } else {
      var all := before + [c] + after;
      assert all[..|all| - 1] == before + [c] + after[..|after| - 1];
      LastVertexBufferWins(s, before, c, after[..|after| - 1]);
    }
  }

  /**
   * The frame `gibgo_draw_primitives_internal` and `gibgo_present_frame`
   * record is read back by the scan: the vertex buffer, the count and the
   * first vertex are the recorded ones, the framebuffer is cleared, and the
   * uniform buffer and the culling flag are kept.
   */
  lemma ScanSeesRecordedFrame(s: RenderState, vertexBuffer: u64, stride: u32, count: u32, first: u32,
                              framebuffer: u64, format: u32, fence: u32)
    ensures Extract(s, DrawCommands(CUBE_COMMANDS, vertexBuffer, stride, count, first) +
                       PresentCommands(CUBE_COMMANDS, framebuffer, format, fence)) ==
      s.(vertexBuffer := vertexBuffer, vertexCount := count, firstVertex := first, cleared := true)
  {
    var draw := DrawCommands(CUBE_COMMANDS, vertexBuffer, stride, count, first);
    var present := PresentCommands(CUBE_COMMANDS, framebuffer, format, fence);
    ExtractAppend(s, draw, present);
    SkippedCommandsKeepState(Extract(s, draw), present);
    AddressRoundTrip(vertexBuffer);
    assert draw[..2][..1] == draw[..1] && draw[..1][..0] == [];
    assert Extract(s, draw[..1]) == s.(vertexBuffer := vertexBuffer);
  }

  // ---------------------------------------------------------------------------
  // The triangle loop
  // ---------------------------------------------------------------------------

  /** The first vertices of the triangles the loop visits: `first`, `first + 3`, ... while `i + 2 < count`. */
  function TriangleStarts(first: nat, count: nat): seq<nat>
    decreases count - first
  {
    if first + 2 < count then [first] + TriangleStarts(first + 3, count) else []
  }

  /**
   * Every visited triangle reads only vertices below `count`, the starts are
   * `first + 3k`, and there are `(count - first) / 3` of them.
   */
  lemma {:induction false} TriangleStartsBounds(first: nat, count: nat)
    ensures forall k :: 0 <= k < |TriangleStarts(first, count)| ==>
      TriangleStarts(first, count)[k] == first + 3 * k && TriangleStarts(first, count)[k] + 2 < count
    ensures |TriangleStarts(first, count)| == if first <= count then (count - first) / 3 else 0
    decreases count - first
  {
    if first + 2 < count {
      TriangleStartsBounds(first + 3, count);
    }
  }

  /** The triangle starting at `i` is rasterised: its three vertices are valid and, when culling, it faces front. */
  predicate KeptTriangle(i: nat, valid: nat -> bool, backFacing: nat -> bool, culling: bool)
  {
    valid(i) && valid(i + 1) && valid(i + 2) && !(culling && backFacing(i))
  }

  /** The starts the loop rasterises: all vertices valid, and not back-facing when culling. */
  function Drawn(starts: seq<nat>, valid: nat -> bool, backFacing: nat -> bool, culling: bool): seq<nat>
  {
    if starts == [] then []
    else
      (if KeptTriangle(starts[0], valid, backFacing, culling) then [starts[0]] else []) +
      Drawn(starts[1..], valid, backFacing, culling)
  }

  /**
   * Culling only removes triangles: with culling on, each drawn triangle is
   * also drawn with culling off, and face culling never draws more.
   */
  lemma {:induction false} CullingOnlyRemoves(starts: seq<nat>, valid: nat -> bool, backFacing: nat -> bool)
    ensures forall i :: i in Drawn(starts, valid, backFacing, true) ==> i in Drawn(starts, valid, backFacing, false)
    ensures |Drawn(starts, valid, backFacing, true)| <= |Drawn(starts, valid, backFacing, false)|
    ensures forall i :: i in Drawn(starts, valid, backFacing, false) ==> i in starts
  {
    if starts != [] {
      CullingOnlyRemoves(starts[1..], valid, backFacing);
    }
  }

  /** `gibgo_map_gpu_memory(address, size)` succeeds on `slots` and gives a non-null pointer. */
  predicate MapsToMemory(slots: seq<Allocation>, address: u64, size: u64)
  {
    MapResult(slots, address, size) == Success && slots[FindGpuFrom(slots, address, 0).value].cpuPointer != 0
  }

  /** How `render_3d_cube_software` ended. */
  datatype RenderOutcome =
    | NotDrawn
    | VertexMapFailed
    | UniformMapFailed
    | Rendered(drawn: seq<nat>, clipped: nat)

  /** The triangles an outcome rasterised, in order. */
  function RenderedTriangles(outcome: RenderOutcome): seq<nat>
  {
    if outcome.Rendered? then outcome.drawn else []
  }

  /**
   * `render_3d_cube_software`: maps `count * 32` bytes of the vertex buffer
   * and the 288-byte uniform buffer (giving up, after unmapping what was
   * mapped, when either map fails or gives a null pointer), then visits the
   * triangles `TriangleStarts(first, count)` in order, counting each as
   * clipped or drawn; `valid` and `backFacing` are the floating-point tests,
   * and `shade` gives the pixels each drawn triangle writes.
   */
  method RenderCube(device: GpuDevice, vertexBuffer: u64, uniformBuffer: u64, count: u32, first: u32,
                    culling: bool, valid: nat -> bool, backFacing: nat -> bool, shade: Shader)
    returns (outcome: RenderOutcome)
    requires device.Valid()
    modifies device.framebuffer
    ensures outcome ==
      if !MapsToMemory(device.allocations[..], vertexBuffer, count as u64 * VERTEX_BYTES) then VertexMapFailed
      else if !MapsToMemory(device.allocations[..], uniformBuffer, UNIFORM_BUFFER_BYTES) then UniformMapFailed
      else outcome
    ensures outcome.Rendered? <==>
      MapsToMemory(device.allocations[..], vertexBuffer, count as u64 * VERTEX_BYTES) &&
      MapsToMemory(device.allocations[..], uniformBuffer, UNIFORM_BUFFER_BYTES)
    ensures outcome.Rendered? ==>
      var starts := TriangleStarts(first as nat, count as nat);
      outcome.drawn == Drawn(starts, valid, backFacing, culling) &&
      |outcome.drawn| + outcome.clipped == |starts|
    ensures device.framebuffer[..] ==
      PaintedImage(old(device.framebuffer[..]), RenderedTriangles(outcome), shade)
  {
    var vertexBytes := count as u64 * VERTEX_BYTES;
    var r, vertexMemory := Map(device, vertexBuffer, vertexBytes);
    if r != Success || vertexMemory == 0 {
      UnpaintedImage(device.framebuffer[..], shade);
      return VertexMapFailed;
    }
    var uniformMemory;
    r, uniformMemory := Map(device, uniformBuffer, UNIFORM_BUFFER_BYTES);
    if r != Success || uniformMemory == 0 {
      var _ := Unmap(device, vertexMemory, vertexBytes);
      UnpaintedImage(device.framebuffer[..], shade);
      return UniformMapFailed;
    }
    var drawn, clipped := VisitTriangles(device.framebuffer, first as nat, count as nat, culling, valid, backFacing, shade);
    var _ := Unmap(device, vertexMemory, vertexBytes);
    var _ := Unmap(device, uniformMemory, UNIFORM_BUFFER_BYTES);
    return Rendered(drawn, clipped);
  }

  /**
   * The triangle loop of `render_3d_cube_software`: from `first`, three
   * vertices at a time, stopping before a triangle that would read vertex
   * `count` or beyond; a triangle with a clipped vertex, or a back-facing one
   * when culling, is counted as clipped, every other one is rasterised
   * into `framebuffer`.
   */
  method VisitTriangles(framebuffer: array<u32>, first: nat, count: nat, culling: bool, valid: nat -> bool,
                        backFacing: nat -> bool, shade: Shader)
    returns (drawn: seq<nat>, clipped: nat)
    modifies framebuffer
    ensures drawn == Drawn(TriangleStarts(first, count), valid, backFacing, culling)
    ensures |drawn| + clipped == |TriangleStarts(first, count)|
    ensures framebuffer[..] == PaintedImage(old(framebuffer[..]), drawn, shade)
  {
    drawn, clipped := [], 0;
    var i: nat := first;
    ghost var visited: seq<nat> := [];
    UnpaintedImage(framebuffer[..], shade);
    while i < count
      invariant first <= i
      invariant TriangleStarts(first, count) == visited + TriangleStarts(i, count)
      invariant drawn == Drawn(visited, valid, backFacing, culling)
      invariant |drawn| + clipped == |visited|
      invariant framebuffer[..] == PaintedImage(old(framebuffer[..]), drawn, shade)
      decreases count - i
    {
      if i + 2 >= count {
        break;
      }
      DrawnAppend(visited, i, valid, backFacing, culling);
      if !valid(i) || !valid(i + 1) || !valid(i + 2) {
        clipped := clipped + 1;
      } else if culling && backFacing(i) {
        clipped := clipped + 1;
      } else {
        RasterizeNext(framebuffer, old(framebuffer[..]), drawn, i, shade);
        drawn := drawn + [i];
      }
      VisitOneMore(visited, i, count);
      visited := visited + [i];
      i := i + 3;
    }
    assert TriangleStarts(i, count) == [];
    assert visited + [] == visited;
  }

  /** Moving the next start from the unvisited starts to the visited ones. */
  lemma VisitOneMore(visited: seq<nat>, i: nat, count: nat)
    requires i + 2 < count
    ensures visited + TriangleStarts(i, count) == (visited + [i]) + TriangleStarts(i + 3, count)
  {
    var rest := TriangleStarts(i + 3, count);
    assert TriangleStarts(i, count) == [i] + rest;
    forall k | 0 <= k < |visited| + 1 + |rest|
      ensures (visited + ([i] + rest))[k] == ((visited + [i]) + rest)[k]
    {
    }
  }

  /** `Drawn` distributes over appending one start. */
  lemma {:induction false} DrawnAppend(starts: seq<nat>, i: nat, valid: nat -> bool, backFacing: nat -> bool, culling: bool)
    ensures Drawn(starts + [i], valid, backFacing, culling) ==
      Drawn(starts, valid, backFacing, culling) + (if KeptTriangle(i, valid, backFacing, culling) then [i] else [])
  {
    var last := if KeptTriangle(i, valid, backFacing, culling) then [i] else [];
    if starts == [] {
      assert [i][1..] == [];
      assert Drawn([i], valid, backFacing, culling) == last + [];
    } else {
      var first := if KeptTriangle(starts[0], valid, backFacing, culling) then [starts[0]] else [];
      var rest := Drawn(starts[1..], valid, backFacing, culling);
      assert (starts + [i])[0] == starts[0];
      assert (starts + [i])[1..] == starts[1..] + [i];
      DrawnAppend(starts[1..], i, valid, backFacing, culling);
      assert Drawn(starts + [i], valid, backFacing, culling) == first + (rest + last);
      assert first + (rest + last) == (first + rest) + last;
    }
  }

  /** The framebuffer after the scan of `cmds`: all background when the list clears, otherwise `fb0`. */
  function ScanImage(fb0: seq<u32>, cmds: seq<Command>): seq<u32>
  {
    if Extract(INITIAL_STATE, cmds).cleared then Filled(CLEAR_COLOR, FB_PIXELS) else fb0
  }

  /**
   * The triangles the renderer rasterises for `cmds` over the allocation
   * table `slots`: none unless the scan finds something to draw and both
   * buffers map, otherwise the kept triangles from the first vertex.
   */
  function ScanDrawn(slots: seq<Allocation>, cmds: seq<Command>, valid: nat -> bool, backFacing: nat -> bool): seq<nat>
  {
    var s := Extract(INITIAL_STATE, cmds);
    if Draws(s) && MapsToMemory(slots, s.vertexBuffer, s.vertexCount as u64 * VERTEX_BYTES) &&
       MapsToMemory(slots, s.uniformBuffer, UNIFORM_BUFFER_BYTES)
    then Drawn(TriangleStarts(s.firstVertex as nat, s.vertexCount as nat), valid, backFacing, s.culling)
    else []
  }

  /** The scan has cleared exactly when it started cleared or the list holds a clear command. */
  lemma {:induction false} ScanClearsExactly(s: RenderState, cmds: seq<Command>)
    ensures Extract(s, cmds).cleared <==>
      s.cleared || exists i :: 0 <= i < |cmds| && cmds[i].kind == CUBE_COMMANDS.clear
    decreases |cmds|
  {
    if cmds != [] {
      var init := cmds[..|cmds| - 1];
      ScanClearsExactly(s, init);
      if exists i :: 0 <= i < |init| && init[i].kind == CUBE_COMMANDS.clear {
        var i :| 0 <= i < |init| && init[i].kind == CUBE_COMMANDS.clear;
        assert cmds[i] == init[i];
      }
      if exists i :: 0 <= i < |cmds| && cmds[i].kind == CUBE_COMMANDS.clear {
        var i :| 0 <= i < |cmds| && cmds[i].kind == CUBE_COMMANDS.clear;
        if i < |init| {
          assert init[i] == cmds[i];
        }
      }
    }
  }

  /**
   * A pixel of the frame the cube renderer leaves: one that no drawn
   * triangle writes is `0xFF111111` when the list holds a clear command and
   * keeps its old colour otherwise; one that a drawn triangle writes shows
   * the colour of the last triangle writing it.
   */
  lemma RenderedFramePixels(fb0: seq<u32>, slots: seq<Allocation>, cmds: seq<Command>, valid: nat -> bool,
                            backFacing: nat -> bool, shade: Shader, p: nat)
    requires |fb0| == FB_PIXELS && p < FB_PIXELS
    ensures var ts := ScanDrawn(slots, cmds, valid, backFacing);
      (forall k :: 1 <= k <= |ts| ==> shade(ts[..k], p).None?) ==>
        PaintedImage(ScanImage(fb0, cmds), ts, shade)[p] ==
          if exists i :: 0 <= i < |cmds| && cmds[i].kind == CUBE_COMMANDS.clear then CLEAR_COLOR else fb0[p]
    ensures var ts := ScanDrawn(slots, cmds, valid, backFacing);
      forall k :: 1 <= k <= |ts| && shade(ts[..k], p).Some? &&
                  (forall j :: k < j <= |ts| ==> shade(ts[..j], p).None?) ==>
        PaintedImage(ScanImage(fb0, cmds), ts, shade)[p] == shade(ts[..k], p).value
  {
    var ts := ScanDrawn(slots, cmds, valid, backFacing);
    var base := ScanImage(fb0, cmds);
    ScanClearsExactly(INITIAL_STATE, cmds);
    if forall k :: 1 <= k <= |ts| ==> shade(ts[..k], p).None? {
      PaintedUncovered(base[p], ts, shade, p);
    }
    forall k | 1 <= k <= |ts| && shade(ts[..k], p).Some? && (forall j :: k < j <= |ts| ==> shade(ts[..j], p).None?)
      ensures PaintedImage(base, ts, shade)[p] == shade(ts[..k], p).value
    {
      PaintedLastWriter(base[p], ts, shade, p, k);
    }
  }

  /**
   * `fb` is the framebuffer the cube renderer leaves for `cmds` over `fb0`:
   * the scanned image with the triangles of `ScanDrawn` rasterised over it.
   */
  ghost predicate RenderedFrame(fb: seq<u32>, fb0: seq<u32>, slots: seq<Allocation>, cmds: seq<Command>,
                                valid: nat -> bool, backFacing: nat -> bool, shade: Shader)
  {
    fb == PaintedImage(ScanImage(fb0, cmds), ScanDrawn(slots, cmds, valid, backFacing), shade)
  }

  /**
   * `execute_3d_cube_rendering`: scans the list, clearing all 800 x 600
   * pixels to `0xFF111111` at every clear command, then, when the scanned
   * state has a vertex buffer and a positive count, renders as
   * `RenderCube` does; always `SUCCESS`. The framebuffer ends as the
   * scanned image (cleared or as it was) with the drawn triangles
   * rasterised over it in order.
   */
  method ExecuteCommands(device: GpuDevice, cmds: seq<Command>, valid: nat -> bool, backFacing: nat -> bool,
                         shade: Shader)
    returns (r: GpuResult, outcome: RenderOutcome)
    requires device.Valid()
    modifies device.framebuffer
    ensures r == Success
    ensures device.framebuffer[..] ==
      PaintedImage(ScanImage(old(device.framebuffer[..]), cmds), RenderedTriangles(outcome), shade)
    ensures RenderedTriangles(outcome) == ScanDrawn(device.allocations[..], cmds, valid, backFacing)
    ensures (outcome == NotDrawn) <==> !Draws(Extract(INITIAL_STATE, cmds))
    ensures outcome == VertexMapFailed <==>
      var s := Extract(INITIAL_STATE, cmds);
      Draws(s) && !MapsToMemory(device.allocations[..], s.vertexBuffer, s.vertexCount as u64 * VERTEX_BYTES)
    ensures outcome == UniformMapFailed <==>
      var s := Extract(INITIAL_STATE, cmds);
      Draws(s) && MapsToMemory(device.allocations[..], s.vertexBuffer, s.vertexCount as u64 * VERTEX_BYTES) &&
      !MapsToMemory(device.allocations[..], s.uniformBuffer, UNIFORM_BUFFER_BYTES)
    ensures outcome.Rendered? ==>
      var s := Extract(INITIAL_STATE, cmds);
      outcome.drawn == Drawn(TriangleStarts(s.firstVertex as nat, s.vertexCount as nat), valid, backFacing, s.culling)
  {
    var s := INITIAL_STATE;
    var i := 0;
    while i < |cmds|
      invariant 0 <= i <= |cmds|
      invariant s == Extract(INITIAL_STATE, cmds[..i])
      invariant device.framebuffer[..] == ScanImage(old(device.framebuffer[..]), cmds[..i])
    {
      var c := cmds[i];
      assert cmds[..i + 1][..i] == cmds[..i];
      if c.kind == SET_UNIFORM_BUFFER {
        s := s.(uniformBuffer := JoinAddress(c.param0, c.param1));
      } else if c.kind == CUBE_COMMANDS.vertexBuffer {
        s := s.(vertexBuffer := JoinAddress(c.param0, c.param1));
      } else if c.kind == CUBE_COMMANDS.draw {
        s := s.(vertexCount := c.param0, firstVertex := c.param1);
      } else if c.kind == ENABLE_FACE_CULLING {
        s := s.(culling := c.param0 != 0);
      } else if c.kind == CUBE_COMMANDS.clear {
        ClearFramebufferToColor(device.framebuffer, FB_WIDTH, FB_HEIGHT, CLEAR_COLOR);
        assert device.framebuffer[..] == Filled(CLEAR_COLOR, FB_PIXELS);
        s := s.(cleared := true);
      }
      i := i + 1;
    }
    assert cmds[..|cmds|] == cmds;
    if Draws(s) {
      outcome := RenderCube(device, s.vertexBuffer, s.uniformBuffer, s.vertexCount, s.firstVertex, s.culling,
                            valid, backFacing, shade);
    } else {
      outcome := NotDrawn;
      UnpaintedImage(device.framebuffer[..], shade);
    }
    return Success, outcome;
  }

  // ---------------------------------------------------------------------------
  // The loop as written, on 32-bit counters
  // ---------------------------------------------------------------------------

  /**
   * One turn of the loop as the C code computes it on `u32`: `None` when it
   * breaks, otherwise the three vertex indices `i`, `i + 1`, `i + 2` it reads,
   * each wrapped to 32 bits.
   */
  function TriangleReadsAsWritten(i: u32, count: u32): Option<(u32, u32, u32)>
  {
    if i >= count || Wrap32(i as nat + 2) >= count then None
    else Some((i, Wrap32(i as nat + 1), Wrap32(i as nat + 2)))
  }

  /**
   * With `count = 2^32 - 1` the turn at `i = 2^32 - 2` (reached from any
   * `first` with `first % 3 == 2`) does not break, because `i + 2` wraps to
   * 0, and it reads vertex `2^32 - 1`, which is not below `count`.
   */
  lemma TriangleLoopAsWrittenReadsPastCount()
    ensures TriangleReadsAsWritten(0xFFFF_FFFE, 0xFFFF_FFFF) == Some((0xFFFF_FFFE, 0xFFFF_FFFF, 0))
    ensures TriangleReadsAsWritten(0xFFFF_FFFE, 0xFFFF_FFFF).value.1 >= 0xFFFF_FFFF
  {
  }

  /**
   * Below that one count the 32-bit loop is the exact one `RenderCube`
   * runs: it breaks exactly when `i + 2 >= count` and reads `i`, `i + 1`,
   * `i + 2` unwrapped.
   */
  lemma TriangleLoopAsWrittenExactBelowMaximum(i: u32, count: u32)
    requires count < 0xFFFF_FFFF && i < count
    ensures TriangleReadsAsWritten(i, count) ==
      if i as nat + 2 < count as nat then Some((i, (i as nat + 1) as u32, (i as nat + 2) as u32)) else None
  {
  }
}
