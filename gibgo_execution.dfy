// The simulated GPU of `gibgoGraphics`: `gpu_execute_command_ring` drains
// the command ring from head to tail, keeping the pipeline registers in the
// static `gpu_state`, counting presented frames, writing the fence register
// and running `gpu_execute_indexed_drawing` for an indexed draw once both a
// vertex and an index buffer are set. The transform, the depth test and the
// pixels a triangle covers are floating-point code and enter as a `Shader`;
// the model keeps which triangles reach the rasteriser and in what order.
module GibgoExecution {
  import opened MachineWords
  import opened GpuCore
  import opened CommandRingModel
  import opened GpuDevices
  import opened GpuDeviceInit
  import opened CubeExecution
  import opened Rasteriser

  // ---------------------------------------------------------------------------
  // Commands of this variant beyond the shared ones
  // ---------------------------------------------------------------------------

  const SET_VERTEX_BUFFER: u32 := 0x02
  const SET_VERTEX_SHADER: u32 := 0x03
  const SET_FRAGMENT_SHADER: u32 := 0x04
  const PRESENT_FRAME: u32 := 0x07
  const FENCE: u32 := 0x08
  const SET_DEPTH_BUFFER: u32 := 0x09
  const CLEAR_DEPTH_BUFFER: u32 := 0x0A
  const ENABLE_DEPTH_TEST: u32 := 0x0B
  const SET_DEPTH_COMPARE: u32 := 0x0C
  const SET_MATRICES: u32 := 0x0D
  const SET_INDEX_BUFFER: u32 := 0x0E
  const DRAW_INDEXED: u32 := 0x0F

  /** The dark blue the indexed drawing clears the framebuffer to. */
  const INDEXED_CLEAR_COLOR: u32 := 0xFF00_0033
  /** Fewer stored vertices than this and the indexed drawing draws nothing. */
  const MIN_STORED_VERTICES: nat := 24

  /** The hardcoded index table of `gpu_execute_indexed_drawing`: six faces of four vertices each. */
  const INDEX_TABLE: seq<nat> := [
    0, 1, 2, 0, 2, 3,
    4, 6, 5, 4, 7, 6,
    8, 9, 10, 8, 10, 11,
    12, 14, 13, 12, 15, 14,
    16, 18, 17, 16, 19, 18,
    20, 21, 22, 20, 22, 23]

  // ---------------------------------------------------------------------------
  // The pipeline state and how each command changes it
  // ---------------------------------------------------------------------------

  /** A value of `GibgoGPUState`. */
  datatype PipelineState = PipelineState(
    vertexBuffer: u64, indexBuffer: u64, indexFormat: u32,
    vertexShader: u64, fragmentShader: u64, matrixBuffer: u64,
    depthTestEnabled: u32, depthCompareOp: u32)

  /** `gpu_state = {0}`. */
  const ZERO_STATE: PipelineState := PipelineState(0, 0, 0, 0, 0, 0, 0, 0)

  /** One command's effect on the pipeline state; every other command leaves it alone. */
  function Consume(s: PipelineState, c: Command): PipelineState
  {
    if c.kind == SET_VERTEX_BUFFER then s.(vertexBuffer := JoinAddress(c.param0, c.param1))
    else if c.kind == SET_INDEX_BUFFER then s.(indexBuffer := JoinAddress(c.param0, c.param1), indexFormat := c.param2)
    else if c.kind == SET_VERTEX_SHADER then s.(vertexShader := JoinAddress(c.param0, c.param1))
    else if c.kind == SET_FRAGMENT_SHADER then s.(fragmentShader := JoinAddress(c.param0, c.param1))
    else if c.kind == SET_MATRICES then s.(matrixBuffer := JoinAddress(c.param0, c.param1))
    else if c.kind == ENABLE_DEPTH_TEST then s.(depthTestEnabled := c.param0)
    else if c.kind == SET_DEPTH_COMPARE then s.(depthCompareOp := c.param0)
    else s
  }

  /** The state after consuming `cs` in order. */
  function ConsumeAll(s: PipelineState, cs: seq<Command>): PipelineState
    decreases |cs|
  {
    if cs == [] then s else Consume(ConsumeAll(s, cs[..|cs| - 1]), cs[|cs| - 1])
  }

  /** How many present commands `cs` holds. */
  function Presents(cs: seq<Command>): nat
    decreases |cs|
  {
    if cs == [] then 0 else Presents(cs[..|cs| - 1]) + (if cs[|cs| - 1].kind == PRESENT_FRAME then 1 else 0)
  }

  /** The value of the last fence command in `cs`, if any. */
  function LastFence(cs: seq<Command>): Option<u32>
    decreases |cs|
  {
    if cs == [] then None
    else if cs[|cs| - 1].kind == FENCE then Some(cs[|cs| - 1].param0)
    else LastFence(cs[..|cs| - 1])
  }

  /** An indexed draw is executed when the state has both a vertex and an index buffer. */
  predicate DrawsIndexed(s: PipelineState, c: Command)
  {
    c.kind == DRAW_INDEXED && s.vertexBuffer != 0 && s.indexBuffer != 0
  }

  /** The `(index_count, first_index)` of every indexed draw of `cs` that is executed, in order. */
  function IndexedDraws(s: PipelineState, cs: seq<Command>): seq<(u32, u32)>
    decreases |cs|
  {
    if cs == [] then []
    else
      var c := cs[|cs| - 1];
      IndexedDraws(s, cs[..|cs| - 1]) +
      (if DrawsIndexed(ConsumeAll(s, cs[..|cs| - 1]), c) then [(c.param0, c.param1)] else [])
  }

  /** The static `gpu_state`, which keeps its values from one submission to the next. */
  class GpuState {
    var vertexBuffer: u64
    var indexBuffer: u64
    var indexFormat: u32
    var vertexShader: u64
    var fragmentShader: u64
    var matrixBuffer: u64
    var depthTestEnabled: u32
    var depthCompareOp: u32

    function Snapshot(): PipelineState
      reads this
    {
      PipelineState(vertexBuffer, indexBuffer, indexFormat, vertexShader, fragmentShader, matrixBuffer,
                    depthTestEnabled, depthCompareOp)
    }

    /** Program start: every field zero. */
    constructor ()
      ensures Snapshot() == ZERO_STATE
    {
      vertexBuffer, indexBuffer, indexFormat := 0, 0, 0;
      vertexShader, fragmentShader, matrixBuffer := 0, 0, 0;
      depthTestEnabled, depthCompareOp := 0, 0;
    }
  }

  /** The `switch` of `gpu_execute_command_ring` on the state fields. */
  method ApplyToState(state: GpuState, c: Command)
    modifies state
    ensures state.Snapshot() == Consume(old(state.Snapshot()), c)
  {
    if c.kind == SET_VERTEX_BUFFER {
      state.vertexBuffer := JoinAddress(c.param0, c.param1);
    } else if c.kind == SET_INDEX_BUFFER {
      state.indexBuffer := JoinAddress(c.param0, c.param1);
      state.indexFormat := c.param2;
    } else if c.kind == SET_VERTEX_SHADER {
      state.vertexShader := JoinAddress(c.param0, c.param1);
    } else if c.kind == SET_FRAGMENT_SHADER {
      state.fragmentShader := JoinAddress(c.param0, c.param1);
    } else if c.kind == SET_MATRICES {
      state.matrixBuffer := JoinAddress(c.param0, c.param1);
    } else if c.kind == ENABLE_DEPTH_TEST {
      state.depthTestEnabled := c.param0;
    } else if c.kind == SET_DEPTH_COMPARE {
      state.depthCompareOp := c.param0;
    }
  }

  // ---------------------------------------------------------------------------
  // Indexed drawing
  // ---------------------------------------------------------------------------

  /** The elements of `starts` that `keep` accepts, in order. */
  function Selected(starts: seq<nat>, keep: nat -> bool): seq<nat>
  {
    if starts == [] then []
    else (if keep(starts[0]) then [starts[0]] else []) + Selected(starts[1..], keep)
  }

  /** `Selected` distributes over appending one element. */
  lemma {:induction false} SelectedAppend(starts: seq<nat>, i: nat, keep: nat -> bool)
    ensures Selected(starts + [i], keep) == Selected(starts, keep) + (if keep(i) then [i] else [])
  {
    var last := if keep(i) then [i] else [];
    if starts == [] {
      assert [i][1..] == [];
      assert Selected([i], keep) == last + Selected([], keep);
    } else {
      var first := if keep(starts[0]) then [starts[0]] else [];
      assert (starts + [i])[0] == starts[0];
      assert (starts + [i])[1..] == starts[1..] + [i];
      assert Selected(starts + [i], keep) == first + Selected(starts[1..] + [i], keep);
      SelectedAppend(starts[1..], i, keep);
      assert Selected(starts[1..] + [i], keep) == Selected(starts[1..], keep) + last;
      assert first + (Selected(starts[1..], keep) + last) == (first + Selected(starts[1..], keep)) + last;
    }
  }

  lemma {:induction false} SelectedAll(starts: seq<nat>, keep: nat -> bool)
    requires forall k :: 0 <= k < |starts| ==> keep(starts[k])
    ensures Selected(starts, keep) == starts
  {
    if starts != [] {
      assert keep(starts[0]);
      SelectedAll(starts[1..], keep);
    }
  }

  lemma {:induction false} SelectedAccepted(starts: seq<nat>, keep: nat -> bool)
    ensures forall i :: i in Selected(starts, keep) ==> i in starts && keep(i)
  {
    if starts != [] {
      SelectedAccepted(starts[1..], keep);
    }
  }

  /** The three entries from `position` on are inside the table. */
  predicate InTable(position: nat)
  {
    position + 2 < |INDEX_TABLE|
  }

  /** The triangle whose entries start at `position` names three stored vertices. */
  predicate TriangleStored(position: nat, stored: nat)
    requires InTable(position)
  {
    INDEX_TABLE[position] < stored && INDEX_TABLE[position + 1] < stored && INDEX_TABLE[position + 2] < stored
  }

  /** The triangle whose entries start at `position` is inside the table and names three stored vertices. */
  predicate Rasterised(position: nat, stored: nat)
  {
    InTable(position) && TriangleStored(position, stored)
  }

  /** Whether the triangle at loop position `i` of a draw from `first` reaches the rasteriser. */
  function KeepsTriangle(first: nat, stored: nat): nat -> bool
  {
    (i: nat) => Rasterised(first + i, stored)
  }

  /**
   * The triangles of an indexed draw that reach the rasteriser: the loop's
   * starts `i` whose three table entries (at `first + i`, `+ 1`, `+ 2`) lie
   * inside the table and name stored vertices.
   */
  function IndexedTriangles(starts: seq<nat>, first: nat, stored: nat): seq<nat>
  {
    Selected(starts, KeepsTriangle(first, stored))
  }

  /** `IndexedTriangles` distributes over appending one start. */
  lemma IndexedTrianglesAppend(starts: seq<nat>, i: nat, first: nat, stored: nat)
    ensures IndexedTriangles(starts + [i], first, stored) ==
      IndexedTriangles(starts, first, stored) +
      (if Rasterised(first + i, stored) then [i] else [])
  {
    SelectedAppend(starts, i, KeepsTriangle(first, stored));
  }

  /** Every table entry is below 24, so 24 stored vertices cover every triangle. */
  lemma IndexTableBound()
    ensures forall p :: 0 <= p < |INDEX_TABLE| ==> INDEX_TABLE[p] < MIN_STORED_VERTICES
  {
  }

  /**
   * With the draw inside the table and at least 24 stored vertices, every
   * visited triangle is rasterised; whatever the inputs, a rasterised
   * triangle reads only table entries and stored vertices.
   */
  lemma IndexedTrianglesComplete(starts: seq<nat>, first: nat, stored: nat)
    requires stored >= MIN_STORED_VERTICES
    requires forall k :: 0 <= k < |starts| ==> InTable(first + starts[k])
    ensures IndexedTriangles(starts, first, stored) == starts
  {
    IndexTableBound();
    forall k | 0 <= k < |starts|
      ensures KeepsTriangle(first, stored)(starts[k])
    {
      var position := first + starts[k];
      assert InTable(position);
      assert INDEX_TABLE[position] < stored && INDEX_TABLE[position + 1] < stored && INDEX_TABLE[position + 2] < stored;
      assert Rasterised(position, stored);
    }
    SelectedAll(starts, KeepsTriangle(first, stored));
  }

  /** Each rasterised triangle is a visited one whose reads are inside the table and the stored vertices. */
  lemma IndexedTrianglesSafe(starts: seq<nat>, first: nat, stored: nat)
    ensures forall i :: i in IndexedTriangles(starts, first, stored) ==>
      i in starts && InTable(first + i) && TriangleStored(first + i, stored)
  {
    SelectedAccepted(starts, KeepsTriangle(first, stored));
    forall i | i in IndexedTriangles(starts, first, stored)
      ensures i in starts && InTable(first + i) && TriangleStored(first + i, stored)
    {
      assert KeepsTriangle(first, stored)(i);
      assert Rasterised(first + i, stored);
    }
  }

  /** The three table reads for the triangle at `position`, skipped when they would lie past the table. */
  method ReadTriangle(position: nat, stored: nat) returns (drawn: bool)
    ensures drawn <==> Rasterised(position, stored)
  {
    drawn := false;
    if position + 2 < |INDEX_TABLE| {
      var index0, index1, index2 := INDEX_TABLE[position], INDEX_TABLE[position + 1], INDEX_TABLE[position + 2];
      drawn := index0 < stored && index1 < stored && index2 < stored;
    }
  }

  /**
   * The triangle loop of `gpu_execute_indexed_drawing`, with the table
   * reads kept inside the 36 entries: `i = 0, 3, ...` while `i + 2 < count`;
   * a triangle whose entries would lie past the table, or that names a
   * vertex beyond the stored ones, is skipped.
   */
  method DrawIndexedTriangles(framebuffer: array<u32>, count: u32, first: u32, stored: u32, shade: Shader)
    returns (rendered: seq<nat>)
    modifies framebuffer
    ensures rendered == IndexedTriangles(TriangleStarts(0, count as nat), first as nat, stored as nat)
    ensures framebuffer[..] == PaintedImage(old(framebuffer[..]), TablePositions(rendered, first as nat), shade)
  {
    rendered := [];
    var positions: seq<nat> := [];
    var i: nat := 0;
    ghost var visited: seq<nat> := [];
    while i < count as nat
      invariant TriangleStarts(0, count as nat) == visited + TriangleStarts(i, count as nat)
      invariant rendered == IndexedTriangles(visited, first as nat, stored as nat)
      invariant positions == TablePositions(rendered, first as nat)
      invariant framebuffer[..] == PaintedImage(old(framebuffer[..]), positions, shade)
      decreases count as nat - i
    {
      if i + 2 >= count as nat {
        break;
      }
      IndexedTrianglesAppend(visited, i, first as nat, stored as nat);
      var drawn := ReadTriangle(first as nat + i, stored as nat);
      if drawn {
        RasterizeNext(framebuffer, old(framebuffer[..]), positions, first as nat + i, shade);
        TablePositionsSnoc(rendered, i, first as nat);
        rendered := rendered + [i];
        positions := positions + [first as nat + i];
      }
      VisitOneMore(visited, i, count as nat);
      visited := visited + [i];
      i := i + 3;
    }
    assert TriangleStarts(i, count as nat) == [];
    assert visited + [] == visited;
  }

  /** The table positions `first + i` of the triangles starting at the offsets `starts`. */
  function TablePositions(starts: seq<nat>, first: nat): (r: seq<nat>)
    ensures |r| == |starts| && forall j :: 0 <= j < |starts| ==> r[j] == first + starts[j]
  {
    seq(|starts|, j requires 0 <= j < |starts| => first + starts[j])
  }

  lemma TablePositionsSnoc(starts: seq<nat>, i: nat, first: nat)
    ensures TablePositions(starts + [i], first) == TablePositions(starts, first) + [first + i]
  {
  }

  /**
   * The table positions of the triangles that the indexed draw `draw`
   * (its count and first index) rasterises with `stored` vertices stored:
   * none without stored vertices or with fewer than 24 of them.
   */
  function DrawnPositions(draw: (u32, u32), stored: Option<u32>): seq<nat>
  {
    if stored.None? || stored.value as nat < MIN_STORED_VERTICES then []
    else TablePositions(IndexedTriangles(TriangleStarts(0, draw.0 as nat), draw.1 as nat, stored.value as nat),
                        draw.1 as nat)
  }

  /**
   * The framebuffer an indexed draw leaves when the host grants its depth
   * buffer: all 800 x 600 pixels dark blue, then the drawn triangles
   * rasterised over them in order.
   */
  function IndexedImage(draw: (u32, u32), stored: Option<u32>, shade: Shader): (r: seq<u32>)
    ensures |r| == FB_PIXELS
  {
    PaintedImage(Filled(INDEXED_CLEAR_COLOR, FB_PIXELS), DrawnPositions(draw, stored), shade)
  }

  /**
   * In the image of an indexed draw, a pixel that no drawn triangle writes
   * is dark blue, and a pixel shows the colour of the last drawn triangle
   * that writes it.
   */
  lemma IndexedImagePixels(draw: (u32, u32), stored: Option<u32>, shade: Shader, p: nat)
    requires p < FB_PIXELS
    ensures var ts := DrawnPositions(draw, stored);
      (forall k :: 1 <= k <= |ts| ==> shade(ts[..k], p).None?) ==> IndexedImage(draw, stored, shade)[p] == INDEXED_CLEAR_COLOR
    ensures var ts := DrawnPositions(draw, stored);
      forall k :: 1 <= k <= |ts| && shade(ts[..k], p).Some? &&
                  (forall j :: k < j <= |ts| ==> shade(ts[..j], p).None?) ==>
        IndexedImage(draw, stored, shade)[p] == shade(ts[..k], p).value
  {
    var ts := DrawnPositions(draw, stored);
    if forall k :: 1 <= k <= |ts| ==> shade(ts[..k], p).None? {
      PaintedUncovered(INDEXED_CLEAR_COLOR, ts, shade, p);
    }
    forall k | 1 <= k <= |ts| && shade(ts[..k], p).Some? && (forall j :: k < j <= |ts| ==> shade(ts[..j], p).None?)
      ensures IndexedImage(draw, stored, shade)[p] == shade(ts[..k], p).value
    {
      PaintedLastWriter(INDEXED_CLEAR_COLOR, ts, shade, p, k);
    }
  }

  /** Without at least 24 stored vertices an indexed draw leaves only the dark blue clear. */
  lemma IndexedImageWithoutVertices(draw: (u32, u32), stored: Option<u32>, shade: Shader)
    requires stored.None? || stored.value as nat < MIN_STORED_VERTICES
    ensures IndexedImage(draw, stored, shade) == Filled(INDEXED_CLEAR_COLOR, FB_PIXELS)
  {
    UnpaintedImage(Filled(INDEXED_CLEAR_COLOR, FB_PIXELS), shade);
  }

  /**
   * `gpu_execute_indexed_drawing(count, first)` with the stored cube
   * vertices (`None` for a null pointer). `depthMemory` says whether the
   * host grants the depth buffer: without it the call returns before
   * touching the framebuffer. Otherwise all 800 x 600 pixels become dark
   * blue first; nothing is drawn without stored vertices or with fewer than
   * 24 of them, and otherwise the triangles are those of
   * `DrawIndexedTriangles`, rasterised in order over the clear.
   */
  method ExecuteIndexedDrawing(device: GpuDevice, count: u32, first: u32, stored: Option<u32>, depthMemory: bool,
                               shade: Shader)
    returns (rendered: seq<nat>)
    requires device.Valid()
    modifies device.framebuffer
    ensures depthMemory ==> device.framebuffer[..] == IndexedImage((count, first), stored, shade)
    ensures !depthMemory ==> device.framebuffer[..] == old(device.framebuffer[..])
    ensures rendered ==
      if !depthMemory || stored.None? || stored.value as nat < MIN_STORED_VERTICES then []
      else IndexedTriangles(TriangleStarts(0, count as nat), first as nat, stored.value as nat)
  {
    if !depthMemory {
      return [];
    }
    ClearFramebufferToColor(device.framebuffer, FB_WIDTH, FB_HEIGHT, INDEXED_CLEAR_COLOR);
    assert device.framebuffer[..] == Filled(INDEXED_CLEAR_COLOR, FB_PIXELS);
    if stored.None? || stored.value as nat < MIN_STORED_VERTICES {
      IndexedImageWithoutVertices((count, first), stored, shade);
      return [];
    }
    rendered := DrawIndexedTriangles(device.framebuffer, count, first, stored.value, shade);
  }

  // ---------------------------------------------------------------------------
  // The consumer
  // ---------------------------------------------------------------------------

  /** The records waiting in the ring: from the head up to the tail. */
  function Pending(buf: seq<u32>, head: nat, tail: nat, capacity: nat): seq<Command>
    requires head < capacity && tail < capacity && 4 * capacity <= |buf|
  {
    ReadRing(buf, head, Distance(head, tail, capacity), capacity)
  }

  /** Reading one more record appends the record of the next slot. */
  lemma ReadRingExtend(buf: seq<u32>, head: nat, n: nat, capacity: nat)
    requires head < capacity && 4 * capacity <= |buf|
    ensures ReadRing(buf, head, n + 1, capacity) ==
      ReadRing(buf, head, n, capacity) + [RecordAt(buf, Advance(head, n, capacity))]
  {
    assert ReadRing(buf, head, n + 1, capacity)[..n] == ReadRing(buf, head, n, capacity);
  }

  /** The registers after the fence register took the last fence value, when there is a register to take it. */
  function Fenced(regs: seq<u32>, fenceWord: nat, hasFenceRegister: bool, fence: Option<u32>): seq<u32>
    requires fenceWord < |regs|
  {
    if hasFenceRegister && fence.Some? then regs[fenceWord := fence.value] else regs
  }

  /** `+ 1` on a `u64` counter that already wrapped is `+ 1` on the exact value, wrapped. */
  lemma Wrap64Step(x: int)
    ensures Wrap64(Wrap64(x) + 1) == Wrap64(x + 1)
  {
  }

  /**
   * One turn of the consumer's `switch`: the state change of `Consume`; an
   * indexed draw with both buffers set runs `ExecuteIndexedDrawing`; a
   * present command adds one frame; a fence command stores its value in the
   * fence register when there is one; nothing else changes.
   */
  method ExecuteRecord(device: GpuDevice, state: GpuState, c: Command, stored: Option<u32>, depthMemory: bool,
                       shade: Shader)
    returns (drew: bool)
    requires device.Valid()
    modifies device`framesRendered, device.registers, device.framebuffer, state
    ensures device.Valid()
    ensures drew == DrawsIndexed(old(state.Snapshot()), c)
    ensures state.Snapshot() == Consume(old(state.Snapshot()), c)
    ensures device.framesRendered ==
      if c.kind == PRESENT_FRAME then Wrap64(old(device.framesRendered) + 1) else old(device.framesRendered)
    ensures device.registers[..] ==
      Fenced(old(device.registers[..]), device.FenceWord(), device.hasFenceRegister,
             if c.kind == FENCE then Some(c.param0) else None)
    ensures drew && depthMemory ==> device.framebuffer[..] == IndexedImage((c.param0, c.param1), stored, shade)
    ensures !(drew && depthMemory) ==> device.framebuffer[..] == old(device.framebuffer[..])
  {
    drew := DrawsIndexed(state.Snapshot(), c);
    if drew {
      var _ := ExecuteIndexedDrawing(device, c.param0, c.param1, stored, depthMemory, shade);
    } else if c.kind == PRESENT_FRAME {
      device.framesRendered := Wrap64(device.framesRendered + 1);
    } else if c.kind == FENCE && device.hasFenceRegister {
      device.registers[device.FenceWord()] := c.param0;
    }
    ApplyToState(state, c);
  }

  /** What the consumer's folds say about one more record. */
  lemma ConsumerStep(s: PipelineState, frames: int, cs: seq<Command>, c: Command)
    ensures ConsumeAll(s, cs + [c]) == Consume(ConsumeAll(s, cs), c)
    ensures IndexedDraws(s, cs + [c]) ==
      IndexedDraws(s, cs) + (if DrawsIndexed(ConsumeAll(s, cs), c) then [(c.param0, c.param1)] else [])
    ensures Wrap64(frames + Presents(cs + [c])) ==
      if c.kind == PRESENT_FRAME then Wrap64(Wrap64(frames + Presents(cs)) + 1) else Wrap64(frames + Presents(cs))
    ensures LastFence(cs + [c]) == if c.kind == FENCE then Some(c.param0) else LastFence(cs)
  {
    ConsumeAllSnoc(s, cs, c);
    IndexedDrawsSnoc(s, cs, c);
    PresentsSnoc(frames, cs, c);
    LastFenceSnoc(cs, c);
  }

  lemma ConsumeAllSnoc(s: PipelineState, cs: seq<Command>, c: Command)
    ensures ConsumeAll(s, cs + [c]) == Consume(ConsumeAll(s, cs), c)
  {
    assert (cs + [c])[..|cs|] == cs;
  }

  lemma IndexedDrawsSnoc(s: PipelineState, cs: seq<Command>, c: Command)
    ensures IndexedDraws(s, cs + [c]) ==
      IndexedDraws(s, cs) + (if DrawsIndexed(ConsumeAll(s, cs), c) then [(c.param0, c.param1)] else [])
  {
    assert (cs + [c])[..|cs|] == cs;
  }

  lemma PresentsSnoc(frames: int, cs: seq<Command>, c: Command)
    ensures Wrap64(frames + Presents(cs + [c])) ==
      if c.kind == PRESENT_FRAME then Wrap64(Wrap64(frames + Presents(cs)) + 1) else Wrap64(frames + Presents(cs))
  {
    assert (cs + [c])[..|cs|] == cs;
    Wrap64Step(frames + Presents(cs));
  }

  lemma LastFenceSnoc(cs: seq<Command>, c: Command)
    ensures LastFence(cs + [c]) == if c.kind == FENCE then Some(c.param0) else LastFence(cs)
  {
    assert (cs + [c])[..|cs|] == cs;
  }

  /** The fence register after one more record. */
  lemma FencedStep(regs: seq<u32>, fenceWord: nat, hasFenceRegister: bool, cs: seq<Command>, c: Command)
    requires fenceWord < |regs|
    requires LastFence(cs + [c]) == if c.kind == FENCE then Some(c.param0) else LastFence(cs)
    ensures Fenced(Fenced(regs, fenceWord, hasFenceRegister, LastFence(cs)), fenceWord, hasFenceRegister,
                   if c.kind == FENCE then Some(c.param0) else None) ==
            Fenced(regs, fenceWord, hasFenceRegister, LastFence(cs + [c]))
  {
  }

  /**
   * What the consumer has done after consuming `consumed` from pipeline
   * state `s0`, frame count `frames0`, registers `regs0` and framebuffer
   * `fb0`: the state is the fold of `consumed`, `draws` the executed indexed
   * draws, each present counted, the last fence stored, and the framebuffer
   * as it was when no indexed draw ran or the host refused the depth buffer
   * (`depthMemory`), and otherwise the image of the last indexed draw.
   */
  ghost predicate ConsumedSoFar(device: GpuDevice, state: GpuState, draws: seq<(u32, u32)>, consumed: seq<Command>,
                                s0: PipelineState, frames0: u64, regs0: seq<u32>, fb0: seq<u32>, depthMemory: bool,
                                stored: Option<u32>, shade: Shader)
    reads device`framesRendered, device.ring, device.registers, device.framebuffer, state
  {
    device.Valid() && |regs0| == device.registers.Length &&
    state.Snapshot() == ConsumeAll(s0, consumed) &&
    draws == IndexedDraws(s0, consumed) &&
    device.framesRendered == Wrap64(frames0 + Presents(consumed)) &&
    device.registers[..] == Fenced(regs0, device.FenceWord(), device.hasFenceRegister, LastFence(consumed)) &&
    (draws != [] && depthMemory ==> device.framebuffer[..] == IndexedImage(draws[|draws| - 1], stored, shade)) &&
    (draws == [] || !depthMemory ==> device.framebuffer[..] == fb0)
  }

  /** One more record consumed: the head is one more advance from where it started, and the queue is one shorter. */
  lemma WalkStep(head0: nat, n: nat, head: nat, tail: nat, capacity: nat)
    requires head0 < capacity && head < capacity && tail < capacity && head != tail
    requires head == Advance(head0, n, capacity)
    ensures NextSlot(head, capacity) == Advance(head0, n + 1, capacity)
    ensures Distance(NextSlot(head, capacity), tail, capacity) == Distance(head, tail, capacity) - 1
  {
    DistanceStep(head, tail, capacity);
  }

  /** Before the first record the consumer has done nothing. */
  lemma ConsumedNothing(device: GpuDevice, state: GpuState, s0: PipelineState, frames0: u64, regs0: seq<u32>,
                        fb0: seq<u32>, depthMemory: bool, stored: Option<u32>, shade: Shader)
    requires device.Valid() && s0 == state.Snapshot() && frames0 == device.framesRendered
    requires regs0 == device.registers[..] && fb0 == device.framebuffer[..]
    ensures ConsumedSoFar(device, state, [], [], s0, frames0, regs0, fb0, depthMemory, stored, shade)
  {
    assert Wrap64(frames0 + Presents([])) == frames0;
  }

  /**
   * One turn of the consumer loop: the record in the head slot is executed
   * and the head moves to the next slot.
   */
  method ConsumeNext(device: GpuDevice, state: GpuState, stored: Option<u32>, depthMemory: bool, shade: Shader,
                     draws: seq<(u32, u32)>,
                     ghost consumed: seq<Command>, ghost s0: PipelineState, ghost frames0: u64,
                     ghost regs0: seq<u32>, ghost fb0: seq<u32>)
    returns (c: Command, drawsAfter: seq<(u32, u32)>)
    requires device.ring.head < device.ring.capacity
    requires ConsumedSoFar(device, state, draws, consumed, s0, frames0, regs0, fb0, depthMemory, stored, shade)
    modifies device`framesRendered, device.ring`head, device.registers, device.framebuffer, state
    ensures c == RecordAt(old(device.ring.buffer[..]), old(device.ring.head) as nat)
    ensures ConsumedSoFar(device, state, drawsAfter, consumed + [c], s0, frames0, regs0, fb0, depthMemory, stored, shade)
    ensures device.ring.head as nat == NextSlot(old(device.ring.head) as nat, device.ring.capacity as nat)
  {
    var ring := device.ring;
    var slot: int := ring.head;
    c := Command(ring.buffer[slot * 4], ring.buffer[slot * 4 + 1], ring.buffer[slot * 4 + 2], ring.buffer[slot * 4 + 3]);
    ConsumerStep(s0, frames0, consumed, c);
    FencedStep(regs0, device.FenceWord(), device.hasFenceRegister, consumed, c);
    var drew := ExecuteRecord(device, state, c, stored, depthMemory, shade);
    drawsAfter := if drew then draws + [(c.param0, c.param1)] else draws;
    ring.head := (ring.head + 1) % ring.capacity;
    assert device.Valid();
    assert state.Snapshot() == ConsumeAll(s0, consumed + [c]);
    assert drawsAfter == IndexedDraws(s0, consumed + [c]);
    assert device.framesRendered == Wrap64(frames0 + Presents(consumed + [c]));
    assert device.registers[..] ==
      Fenced(regs0, device.FenceWord(), device.hasFenceRegister, LastFence(consumed + [c]));
  }

  /**
   * `gpu_execute_command_ring`: every record between the ring's head and its
   * tail is consumed in order, each through the `switch` of `ExecuteRecord`
   * over the static pipeline state, and the head ends at the tail. The
   * result is always `SUCCESS`. The ghost parameters name the records
   * pending on entry and the state they are consumed from.
   */
  method ExecuteCommandRing(device: GpuDevice, state: GpuState, stored: Option<u32>, depthMemory: bool, shade: Shader,
                            ghost pending: seq<Command>,
                            ghost s0: PipelineState, ghost frames0: u64, ghost regs0: seq<u32>, ghost fb0: seq<u32>)
    returns (r: GpuResult, draws: seq<(u32, u32)>)
    requires device.Valid() && device.ring.head < device.ring.capacity
    requires pending == Pending(device.ring.buffer[..], device.ring.head, device.ring.tail, device.ring.capacity)
    requires s0 == state.Snapshot() && frames0 == device.framesRendered
    requires regs0 == device.registers[..] && fb0 == device.framebuffer[..]
    modifies device`framesRendered, device.ring`head, device.registers, device.framebuffer, state
    ensures r == Success
    ensures device.Valid()
    ensures device.ring.head == device.ring.tail
    ensures ConsumedSoFar(device, state, draws, pending, s0, frames0, regs0, fb0, depthMemory, stored, shade)
  {
    var ring := device.ring;
    ghost var buf := ring.buffer[..];
    ghost var head0 := ring.head;
    ghost var total := Distance(ring.head, ring.tail, ring.capacity);
    ghost var consumed: seq<Command> := [];
    draws := [];
    ConsumedNothing(device, state, s0, frames0, regs0, fb0, depthMemory, stored, shade);
    while ring.head != ring.tail
      invariant ring.buffer[..] == buf && ring.head < ring.capacity
      invariant ring.head == Advance(head0, |consumed|, ring.capacity)
      invariant |consumed| + Distance(ring.head, ring.tail, ring.capacity) == total
      invariant consumed == ReadRing(buf, head0, |consumed|, ring.capacity)
      invariant ConsumedSoFar(device, state, draws, consumed, s0, frames0, regs0, fb0, depthMemory, stored, shade)
      decreases Distance(ring.head, ring.tail, ring.capacity)
    {
      ReadRingExtend(buf, head0, |consumed|, ring.capacity);
      WalkStep(head0, |consumed|, ring.head, ring.tail, ring.capacity);
      var c;
      c, draws := ConsumeNext(device, state, stored, depthMemory, shade, draws, consumed, s0, frames0, regs0, fb0);
      consumed := consumed + [c];
    }
    assert |consumed| == total;
    assert consumed == pending;
    return Success, draws;
  }

  // ---------------------------------------------------------------------------
  // The table reads as written
  // ---------------------------------------------------------------------------

  /**
   * The table positions the loop as written reads for the triangle starting
   * at `i`: `first_index + i + k` on `u32`, with no check against the
   * 36 entries.
   */
  function IndexReadsAsWritten(first: u32, i: nat): (u32, u32, u32)
  {
    (Wrap32(first as nat + i), Wrap32(first as nat + i + 1), Wrap32(first as nat + i + 2))
  }

  /**
   * An indexed draw of 39 indices from 0, which `gibgo_draw_indexed_cube`
   * accepts, visits a thirteenth triangle starting at 36 and so reads
   * entries 36, 37 and 38 of the 36-entry table.
   */
  lemma IndexedDrawingAsWrittenReadsPastTable()
    ensures 36 in TriangleStarts(0, 39)
    ensures IndexReadsAsWritten(0, 36) == (36, 37, 38)
    ensures IndexReadsAsWritten(0, 36).0 as nat >= |INDEX_TABLE|
    ensures !InTable(0 + 36)
  {
    assert TriangleStarts(36, 39) == [36] + TriangleStarts(39, 39);
    assert TriangleStarts(33, 39) == [33] + TriangleStarts(36, 39);
    assert TriangleStarts(30, 39) == [30] + TriangleStarts(33, 39);
    assert TriangleStarts(27, 39) == [27] + TriangleStarts(30, 39);
    assert TriangleStarts(24, 39) == [24] + TriangleStarts(27, 39);
    assert TriangleStarts(21, 39) == [21] + TriangleStarts(24, 39);
    assert TriangleStarts(18, 39) == [18] + TriangleStarts(21, 39);
    assert TriangleStarts(15, 39) == [15] + TriangleStarts(18, 39);
    assert TriangleStarts(12, 39) == [12] + TriangleStarts(15, 39);
    assert TriangleStarts(9, 39) == [9] + TriangleStarts(12, 39);
    assert TriangleStarts(6, 39) == [6] + TriangleStarts(9, 39);
    assert TriangleStarts(3, 39) == [3] + TriangleStarts(6, 39);
    assert TriangleStarts(0, 39) == [0] + TriangleStarts(3, 39);
  }

  /**
   * Within the table the guarded loop reads exactly what the loop as
   * written reads: when `first + count <= 36` no triangle is skipped for
   * lying past the table.
   */
  lemma InTableWhenDrawFits(count: u32, first: u32)
    requires first as nat + count as nat <= |INDEX_TABLE|
    ensures forall i :: i in TriangleStarts(0, count as nat) ==>
      InTable(first as nat + i) && IndexReadsAsWritten(first, i).0 as nat == first as nat + i
  {
    var starts := TriangleStarts(0, count as nat);
    TriangleStartsBounds(0, count as nat);
    forall i | i in starts
      ensures InTable(first as nat + i) && IndexReadsAsWritten(first, i).0 as nat == first as nat + i
    {
      var k :| 0 <= k < |starts| && starts[k] == i;
      assert i + 2 < count as nat;
      assert first as nat + i < TWO_32;
    }
  }
}
