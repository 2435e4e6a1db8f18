/** The GD primitives the writer calls, on a canvas of `array2<Color>` indexed
    `[x, y]` (`Length0` is the width). Painting replaces pixels; GD's alpha
    blending is not modelled. */
module Canvas {
  import opened Errors

  /** A GD colour: channels 0..255 and alpha 0 (opaque) .. 127 (transparent). */
  datatype Color = Color(r: int, g: int, b: int, a: int)

  /** A fresh true-colour GD image is opaque black. */
  const Black := Color(0, 0, 0, 0)

  /** The corners passed to `imagefilledrectangle`. */
  datatype Rect = Rect(x1: int, y1: int, x2: int, y2: int)

  /** The pixels `imagefilledrectangle` paints: both corners inclusive, in
      either order (GD swaps them). */
  predicate InRect(rc: Rect, x: int, y: int) {
    && (if rc.x1 <= rc.x2 then rc.x1 <= x <= rc.x2 else rc.x2 <= x <= rc.x1)
    && (if rc.y1 <= rc.y2 then rc.y1 <= y <= rc.y2 else rc.y2 <= y <= rc.y1)
  }

  /** The destination pixels `imagecopyresampled` writes at `(dx, dy)` with
      size `w` by `h`: a half-open block. */
  predicate InBlock(dx: int, dy: int, w: int, h: int, x: int, y: int) {
    dx <= x < dx + w && dy <= y < dy + h
  }

  /** A canvas read out as columns: `p[x][y]`. */
  type Pixels = seq<seq<Color>>

  /** The colour `imagecopyresampled` writes at each destination offset. */
  type Sampler = (int, int) -> Color

  ghost predicate Uniform(img: array2<Color>, c: Color)
    reads img
  {
    forall x, y :: 0 <= x < img.Length0 && 0 <= y < img.Length1 ==> img[x, y] == c
  }

  /** `imagecreatetruecolor`: fails, and the writer then throws
      `GenerateImageException`, for a width or height below 1. */
  method Allocate(width: int, height: int) returns (r: Result<array2<Color>>)
    ensures r.Ok? <==> width >= 1 && height >= 1
    ensures r.Ok? ==> fresh(r.value) && r.value.Length0 == width && r.value.Length1 == height
    ensures r.Ok? ==> Uniform(r.value, Black)
    ensures r.Err? ==> r.error == GenerateImageException
  {
    if width < 1 || height < 1 {
      return Err(GenerateImageException);
    }
    var img := new Color[width, height]((x, y) => Black);
    return Ok(img);
  }

  /** `imagefill(img, 0, 0, c)`: a flood fill from the corner, which on a
      canvas of one colour covers it all. */
  method Flood(img: array2<Color>, c: Color)
    requires img.Length0 >= 1 && img.Length1 >= 1
    requires Uniform(img, img[0, 0])
    modifies img
    ensures Uniform(img, c)
  {
    forall x, y | 0 <= x < img.Length0 && 0 <= y < img.Length1 {
      img[x, y] := c;
    }
  }

  /** `imagefilledrectangle`, clipped to the canvas. */
  method FilledRectangle(img: array2<Color>, rc: Rect, c: Color)
    modifies img
    ensures forall x, y :: 0 <= x < img.Length0 && 0 <= y < img.Length1 ==>
      img[x, y] == if InRect(rc, x, y) then c else old(img[x, y])
  {
    forall x, y | 0 <= x < img.Length0 && 0 <= y < img.Length1 && InRect(rc, x, y) {
      img[x, y] := c;
    }
  }

  /** `imagecopyresampled` seen from the destination: the block at
      `(dx, dy)` of size `w` by `h`, clipped to the canvas, receives the
      filtered source pixels `sample` gives; everything else is kept. */
  method CopyResampled(dst: array2<Color>, dx: int, dy: int, w: int, h: int, sample: Sampler)
    modifies dst
    ensures forall x, y :: 0 <= x < dst.Length0 && 0 <= y < dst.Length1 ==>
      dst[x, y] == if InBlock(dx, dy, w, h, x, y) then sample(x - dx, y - dy) else old(dst[x, y])
  {
    forall x, y | 0 <= x < dst.Length0 && 0 <= y < dst.Length1 && InBlock(dx, dy, w, h, x, y) {
      dst[x, y] := sample(x - dx, y - dy);
    }
  }

  /** The canvas read out as columns. */
  function Snapshot(img: array2<Color>): (p: Pixels)
    reads img
    ensures |p| == img.Length0
    ensures forall x :: 0 <= x < |p| ==> |p[x]| == img.Length1
  {
    seq(img.Length0, x requires 0 <= x < img.Length0 reads img =>
      seq(img.Length1, y requires 0 <= y < img.Length1 reads img => img[x, y]))
  }

  /** A snapshot that agrees with the canvas pixel by pixel is its snapshot. */
  lemma SnapshotIs(img: array2<Color>, p: Pixels)
    requires |p| == img.Length0 && forall x :: 0 <= x < |p| ==> |p[x]| == img.Length1
    requires forall x, y :: 0 <= x < img.Length0 && 0 <= y < img.Length1 ==> img[x, y] == p[x][y]
    ensures Snapshot(img) == p
  {
    var s := Snapshot(img);
    forall x | 0 <= x < |p|
      ensures s[x] == p[x]
    {
      assert |s[x]| == |p[x]|;
    }
  }

  /** A w by h snapshot of one colour: the canvas `imagefill` leaves. */
  function FillPixels(w: nat, h: nat, c: Color): (p: Pixels)
    ensures |p| == w && forall x :: 0 <= x < w ==> |p[x]| == h
  {
    seq(w, x => seq(h, y => c))
  }

  /** `CopyResampled` on a snapshot: the block at (dx, dy) of size w by h
      takes the sampled pixels, everything else is kept. */
  function Place(dst: Pixels, dx: int, dy: int, w: int, h: int, sample: Sampler): (p: Pixels)
    ensures |p| == |dst| && forall x :: 0 <= x < |p| ==> |p[x]| == |dst[x]|
  {
    seq(|dst|, x requires 0 <= x < |dst| =>
      seq(|dst[x]|, y requires 0 <= y < |dst[x]| =>
        if InBlock(dx, dy, w, h, x, y) then sample(x - dx, y - dy) else dst[x][y]))
  }

  /** A w by h snapshot with `img` at its top left corner and `bg` elsewhere. */
  function Extend(img: Pixels, w: nat, h: nat, bg: Color): Pixels {
    seq(w, x => seq(h, y => if 0 <= x < |img| && 0 <= y < |img[x]| then img[x][y] else bg))
  }

  /** A canvas that took the sampled block over `before` has that snapshot. */
  lemma SnapshotPlace(img: array2<Color>, before: Pixels, dx: int, dy: int, w: int, h: int, sample: Sampler)
    requires |before| == img.Length0 && forall x :: 0 <= x < |before| ==> |before[x]| == img.Length1
    requires forall x, y :: 0 <= x < img.Length0 && 0 <= y < img.Length1 ==>
      img[x, y] == if InBlock(dx, dy, w, h, x, y) then sample(x - dx, y - dy) else before[x][y]
    ensures Snapshot(img) == Place(before, dx, dy, w, h, sample)
  {
    SnapshotIs(img, Place(before, dx, dy, w, h, sample));
  }

  /** A canvas holding `source` at its top left corner and `bg` elsewhere. */
  lemma SnapshotExtend(img: array2<Color>, source: array2<Color>, bg: Color)
    requires forall x, y :: 0 <= x < img.Length0 && 0 <= y < img.Length1 ==>
      img[x, y] == if x < source.Length0 && y < source.Length1 then source[x, y] else bg
    ensures Snapshot(img) == Extend(Snapshot(source), img.Length0, img.Length1, bg)
  {
    SnapshotIs(img, Extend(Snapshot(source), img.Length0, img.Length1, bg));
  }
}
