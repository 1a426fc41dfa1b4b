/**
 * Where the screen picker samples (main.js): a canvas coordinate is rounded
 * with `Math.round` and clamped into the canvas before the one-pixel read, and
 * the magnifier draws a small crop of the canvas around the cursor.
 * Coordinates are exact reals here, not IEEE doubles.
 */
module ScreenSampling {
  import opened Wrappers
  import opened HexText
  import opened Canvas

  /** `Math.round`: the nearest integer, halves rounded up (towards +infinity). */
  function Round(x: real): (n: int)
    ensures n as real - 0.5 <= x < n as real + 0.5
  {
    (x + 0.5).Floor
  }

  /** `Math.max(0, Math.min(size - 1, v))`: v moved into the pixel indices 0 .. size-1 of one axis. */
  function ClampToAxis(v: int, size: nat): (c: nat)
    ensures size >= 1 ==> c < size
    ensures 0 <= v < size ==> c == v
    ensures v < 0 ==> c == 0
    ensures size >= 1 && v >= size ==> c == size - 1
    ensures size == 0 ==> c == 0
  {
    if v < 0 || size == 0 then 0
    else if v <= size - 1 then v
    else size - 1
  }

  /** The clamped index is the pixel of the axis nearest to v. */
  lemma ClampIsNearest(v: int, size: nat, k: nat)
    requires k < size
    ensures Dist(v, ClampToAxis(v, size)) <= Dist(v, k)
  {
  }

  function Dist(a: int, b: int): nat { if a <= b then b - a else a - b }

  /**
   * The pixel `getColorAtPosition` reads for the canvas coordinate (x, y):
   * None when the canvas has no pixels (the early `return null`), otherwise
   * the rounded coordinate clamped into the canvas.
   */
  function SamplePoint(width: nat, height: nat, x: real, y: real): (p: Option<Point>)
    ensures p.None? <==> width == 0 || height == 0
    ensures p.Some? ==> p.value.x < width && p.value.y < height
    ensures p.Some? && 0 <= Round(x) < width ==> p.value.x == Round(x)
    ensures p.Some? && 0 <= Round(y) < height ==> p.value.y == Round(y)
  {
    if width == 0 || height == 0 then None
    else Some(Point(ClampToAxis(Round(x), width), ClampToAxis(Round(y), height)))
  }

  /**
   * `getColorAtPosition(canvasX, canvasY)`. The canvas read `getImageData`
   * is the parameter `read`, None standing for a read that throws (the
   * `catch` that returns null).
   */
  function GetColorAtPosition(width: nat, height: nat, read: PixelRead, x: real, y: real)
    : (c: Option<Rgb>)
    ensures width == 0 || height == 0 ==> c.None?
    ensures width >= 1 && height >= 1 ==>
      c == read(SamplePoint(width, height, x, y).value.x, SamplePoint(width, height, x, y).value.y)
    ensures c.Some? ==> (
      && SamplePoint(width, height, x, y).Some?
      && var p := SamplePoint(width, height, x, y).value;
         p.x < width && p.y < height && c == read(p.x, p.y))
  {
    match SamplePoint(width, height, x, y)
    case None => None
    case Some(p) => read(p.x, p.y)
  }

  /** Side of the magnifier tile in screen pixels (MAGNIFIER_SIZE). */
  const MagnifierSize: nat := 200
  /** The magnification factor (MAGNIFICATION). */
  const Magnification: nat := 10
  /** Half the side of the source crop: halfSize / MAGNIFICATION. */
  const SourceSize: real := (MagnifierSize as real / 2.0) / Magnification as real

  /** The extent of the crop along one axis: its first coordinate and its length. */
  datatype Span = Span(start: real, length: real)

  /** The source rectangle the magnifier copies from the canvas. */
  datatype Crop = Crop(sourceX: real, sourceY: real, sourceWidth: real, sourceHeight: real)

  /**
   * One axis of the crop: the origin `center - sourceSize` clamped into
   * `[0, size-1]`, the length `2 * sourceSize` cut so that the span ends
   * inside the canvas.
   */
  function CropSpan(size: nat, center: real): (s: Span)
    requires size >= 1
    ensures 0.0 <= s.start <= (size - 1) as real
    ensures 0.0 < s.length <= 2.0 * SourceSize
    ensures s.start + s.length <= size as real
  {
    var start := Max(0.0, Min((size - 1) as real, center - SourceSize));
    Span(start, Min(SourceSize * 2.0, size as real - start))
  }

  /** Away from the edges the crop is the full square centred on the cursor. */
  lemma CropSpanCentered(size: nat, center: real)
    requires size >= 1
    requires SourceSize <= center <= size as real - SourceSize
    ensures CropSpan(size, center) == Span(center - SourceSize, 2.0 * SourceSize)
  {
  }

  /** The pixel whose colour the magnifier reports lies inside the crop it draws. */
  lemma SampleInsideCropSpan(size: nat, center: real)
    requires size >= 1
    ensures CropSpan(size, center).start <= ClampToAxis(Round(center), size) as real
    ensures ClampToAxis(Round(center), size) as real < CropSpan(size, center).start + CropSpan(size, center).length
  {
  }

  /** The part of `updateMagnifier` this model keeps: the crop it draws and the pixel it reports. */
  datatype MagnifierView = MagnifierView(crop: Crop, sample: Point)

  predicate CropInCanvas(c: Crop, width: nat, height: nat) {
    && 0.0 <= c.sourceX && 0.0 < c.sourceWidth && c.sourceX + c.sourceWidth <= width as real
    && 0.0 <= c.sourceY && 0.0 < c.sourceHeight && c.sourceY + c.sourceHeight <= height as real
  }

  predicate PointInCrop(p: Point, c: Crop) {
    && c.sourceX <= p.x as real < c.sourceX + c.sourceWidth
    && c.sourceY <= p.y as real < c.sourceY + c.sourceHeight
  }

  /**
   * `updateMagnifier(canvasX, canvasY)`: nothing without a stream or with an
   * empty canvas; otherwise a crop inside the canvas, at most
   * 2*sourceSize square, that contains the sampled pixel.
   */
  function UpdateMagnifier(hasStream: bool, width: nat, height: nat, x: real, y: real)
    : (v: Option<MagnifierView>)
    ensures v.Some? <==> hasStream && width >= 1 && height >= 1
    ensures v.Some? ==>
      v.value.crop == Crop(CropSpan(width, x).start, CropSpan(height, y).start, CropSpan(width, x).length, CropSpan(height, y).length)
    ensures v.Some? ==> CropInCanvas(v.value.crop, width, height)
    ensures v.Some? ==> v.value.crop.sourceWidth <= 2.0 * SourceSize && v.value.crop.sourceHeight <= 2.0 * SourceSize
    ensures v.Some? ==> Some(v.value.sample) == SamplePoint(width, height, x, y)
    ensures v.Some? ==> PointInCrop(v.value.sample, v.value.crop)
  {
    if !hasStream || width == 0 || height == 0 then None
    else
      var sx, sy := CropSpan(width, x), CropSpan(height, y);
      SampleInsideCropSpan(width, x);
      SampleInsideCropSpan(height, y);
      Some(MagnifierView(
        Crop(sx.start, sy.start, sx.length, sy.length),
        Point(ClampToAxis(Round(x), width), ClampToAxis(Round(y), height))))
  }
}
