/** What both pickers share about a canvas: pixel positions and the one-pixel read. */
module Canvas {
  import opened Wrappers
  import opened HexText

  /** A pixel of the canvas, by column and row. */
  datatype Point = Point(x: nat, y: nat)

  /**
   * `getImageData(x, y, 1, 1)` followed by taking its first three bytes: the
   * colour at a pixel, None when the read throws.
   */
  type PixelRead = (nat, nat) -> Option<Rgb>

  /** `Math.min` on two numbers. */
  function Min(a: real, b: real): real { if a <= b then a else b }

  /** `Math.max` on two numbers. */
  function Max(a: real, b: real): real { if a <= b then b else a }
}
