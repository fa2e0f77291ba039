// What the software rasterisers leave in the framebuffer. Which pixels a
// triangle covers, the colour it gives them and the depth test are
// floating-point code outside the model: they enter as one function,
// `shade`. The model keeps the order in which triangles overwrite pixels.
module Rasteriser {
  import opened MachineWords

  /**
   * `shade(ts, p)` is the colour that the last triangle of `ts` writes at
   * pixel `p`, or `None` when it leaves `p` alone. That triangle is
   * rasterised after the earlier triangles of `ts` in the same call, and
   * those earlier triangles fill the depth buffer where there is one.
   */
  type Shader = (seq<nat>, nat) -> Option<u32>

  /** Pixel `p` after the last triangle of `ts` is rasterised over a pixel of colour `below`. */
  function Overwrite(shade: Shader, ts: seq<nat>, p: nat, below: u32): u32
  {
    match shade(ts, p)
    case Some(color) => color
    case None => below
  }

  /** Pixel `p`, of colour `base` before, after the triangles `ts` are rasterised in order. */
  function Painted(base: u32, ts: seq<nat>, shade: Shader, p: nat): u32
    decreases |ts|
  {
    if ts == [] then base else Overwrite(shade, ts, p, Painted(base, ts[..|ts| - 1], shade, p))
  }

  /** The image `base` after the triangles `ts` are rasterised in order. */
  function PaintedImage(base: seq<u32>, ts: seq<nat>, shade: Shader): (r: seq<u32>)
    ensures |r| == |base|
    ensures forall p :: 0 <= p < |base| ==> r[p] == Painted(base[p], ts, shade, p)
  {
    seq(|base|, p requires 0 <= p < |base| => Painted(base[p], ts, shade, p))
  }

  /** An image of `n` pixels of one colour. */
  function Filled(color: u32, n: nat): (r: seq<u32>)
    ensures |r| == n && forall p :: 0 <= p < n ==> r[p] == color
  {
    seq(n, _ => color)
  }

  /** Rasterising no triangle leaves the image as it was. */
  lemma UnpaintedImage(base: seq<u32>, shade: Shader)
    ensures PaintedImage(base, [], shade) == base
  {
  }

  /** A pixel that none of the triangles writes keeps its colour. */
  lemma {:induction false} PaintedUncovered(base: u32, ts: seq<nat>, shade: Shader, p: nat)
    requires forall k :: 1 <= k <= |ts| ==> shade(ts[..k], p).None?
    ensures Painted(base, ts, shade, p) == base
    decreases |ts|
  {
    if ts != [] {
      var init := ts[..|ts| - 1];
      assert ts[..|ts|] == ts;
      forall k | 1 <= k <= |init|
        ensures shade(init[..k], p).None?
      {
        assert init[..k] == ts[..k];
      }
      PaintedUncovered(base, init, shade, p);
    }
  }

  /**
   * A pixel shows the colour that the last triangle writing it gave it.
   * Triangle `k - 1` of `ts` writes the pixel and no later triangle does.
   */
  lemma {:induction false} PaintedLastWriter(base: u32, ts: seq<nat>, shade: Shader, p: nat, k: nat)
    requires 1 <= k <= |ts| && shade(ts[..k], p).Some?
    requires forall j :: k < j <= |ts| ==> shade(ts[..j], p).None?
    ensures Painted(base, ts, shade, p) == shade(ts[..k], p).value
    decreases |ts|
  {
    assert ts[..|ts|] == ts;
    if k < |ts| {
      var init := ts[..|ts| - 1];
      assert init[..k] == ts[..k];
      forall j | k < j <= |init|
        ensures shade(init[..j], p).None?
      {
        assert init[..j] == ts[..j];
      }
      PaintedLastWriter(base, init, shade, p, k);
    }
  }

  /** Rasterising one more triangle is one more overwrite of every pixel. */
  lemma PaintedSnoc(base: u32, ts: seq<nat>, t: nat, shade: Shader, p: nat)
    ensures Painted(base, ts + [t], shade, p) == Overwrite(shade, ts + [t], p, Painted(base, ts, shade, p))
  {
    assert (ts + [t])[..|ts|] == ts;
  }

  /**
   * One call of the rasteriser: the last triangle of `ts` writes its pixels
   * into `framebuffer`, and every other pixel keeps its value.
   */
  method RasterizeTriangle(framebuffer: array<u32>, ts: seq<nat>, shade: Shader)
    modifies framebuffer
    ensures forall p :: 0 <= p < framebuffer.Length ==>
      framebuffer[p] == Overwrite(shade, ts, p, old(framebuffer[p]))
  {
    var p := 0;
    while p < framebuffer.Length
      invariant 0 <= p <= framebuffer.Length
      invariant forall q :: 0 <= q < p ==> framebuffer[q] == Overwrite(shade, ts, q, old(framebuffer[q]))
      invariant forall q :: p <= q < framebuffer.Length ==> framebuffer[q] == old(framebuffer[q])
    {
      var written := shade(ts, p);
      if written.Some? {
        framebuffer[p] := written.value;
      }
      p := p + 1;
    }
  }

  /**
   * Rasterising the triangles `ts + [t]` one after the other: if the
   * framebuffer showed `ts` over `base` before the call, it shows `ts + [t]`
   * over `base` after it.
   */
  method RasterizeNext(framebuffer: array<u32>, ghost base: seq<u32>, ts: seq<nat>, t: nat, shade: Shader)
    requires |base| == framebuffer.Length && framebuffer[..] == PaintedImage(base, ts, shade)
    modifies framebuffer
    ensures framebuffer[..] == PaintedImage(base, ts + [t], shade)
  {
    RasterizeTriangle(framebuffer, ts + [t], shade);
    forall p | 0 <= p < framebuffer.Length
      ensures framebuffer[p] == PaintedImage(base, ts + [t], shade)[p]
    {
      assert old(framebuffer[p]) == old(framebuffer[..])[p];
      PaintedSnoc(base[p], ts, t, shade, p);
    }
  }
}
