/**
  The crop step of the object-extraction program (src/main.rs, lines 132-140):
  a window of the requested size whose top-left corner is the object's centre
  minus half the requested size, clamped first to 0 from below and then to
  "canvas size minus requested size" from above. The window's own size is the
  requested size clamped to the canvas.

  The upper clamp uses the requested size, not the clamped one, so a request
  larger than the canvas yields a negative offset; this is reproduced as
  written.
*/
module CropWindow {

  /** An axis-aligned integer rectangle: top-left corner and size. */
  datatype Rect = Rect(x: int, y: int, width: int, height: int)

  /** The requested crop size the program is built with. */
  const DefaultInputWidth: int := 300
  const DefaultInputHeight: int := 300

  const I32Min: int := -0x8000_0000
  const I32Max: int := 0x7fff_ffff

  function Min(a: int, b: int): int {
    if a <= b then a else b
  }

  function Max(a: int, b: int): int {
    if a >= b then a else b
  }

  /**
    A float-to-`i32` cast: rounds toward zero and saturates at the bounds of
    the 32-bit range.
  */
  function TruncateToI32(v: real): (r: int)
    ensures I32Min <= r <= I32Max
    ensures I32Min as real <= v <= I32Max as real && 0.0 <= v ==> r as real <= v < r as real + 1.0
    ensures I32Min as real <= v <= I32Max as real && v < 0.0 ==> r as real - 1.0 < v <= r as real
    ensures v > I32Max as real ==> r == I32Max
    ensures v < I32Min as real ==> r == I32Min
  {
    if v >= I32Max as real then I32Max
    else if v <= I32Min as real then I32Min
    else if v >= 0.0 then v.Floor
    else -((-v).Floor)
  }

  /** Integer division by two that rounds toward zero, as `i32` division does. */
  function HalfTowardZero(n: int): (h: int)
    ensures 0 <= n ==> 0 <= h && h + h <= n < h + h + 2
    ensures n < 0 ==> h <= 0 && n <= h + h < n + 2
  {
    if n >= 0 then n / 2 else -((-n) / 2)
  }

  /**
    One axis of the window: the offset `raw` clamped to at least 0 and then
    to at most `extent - requested`.
  */
  function ClampOffset(raw: int, requested: int, extent: int): int {
    Min(Max(raw, 0), extent - requested)
  }

  /**
    The crop rectangle for the truncated centre (`cx`, `cy`), the requested
    size and the canvas size (`cols`, `rows`).
  */
  function CropRect(cx: int, cy: int, inputWidth: int, inputHeight: int, cols: int, rows: int): (r: Rect)
    ensures r.width <= inputWidth && r.width <= cols && (r.width == inputWidth || r.width == cols)
    ensures r.height <= inputHeight && r.height <= rows && (r.height == inputHeight || r.height == rows)
    ensures r.x <= cols - inputWidth && r.y <= rows - inputHeight
  {
    var cropX := cx - HalfTowardZero(inputWidth);
    var cropY := cy - HalfTowardZero(inputHeight);
    Rect(
      ClampOffset(cropX, inputWidth, cols),
      ClampOffset(cropY, inputHeight, rows),
      Min(inputWidth, cols),
      Min(inputHeight, rows))
  }

  /** The window lies within a `cols` by `rows` canvas. */
  predicate ContainedIn(r: Rect, cols: int, rows: int) {
    && 0 <= r.x && 0 <= r.width && r.x + r.width <= cols
    && 0 <= r.y && 0 <= r.height && r.y + r.height <= rows
  }

  /**
    One axis: when the request fits the extent, the clamped offset lies in
    [0, extent - requested]; when it does not, the offset is
    extent - requested, which is negative. A raw corner in range is kept, one
    below 0 goes to 0 (if the request fits) and one beyond the upper bound
    goes to that bound.
  */
  lemma ClampOffsetRange(raw: int, requested: int, extent: int)
    ensures requested <= extent ==> 0 <= ClampOffset(raw, requested, extent) <= extent - requested
    ensures requested > extent ==> ClampOffset(raw, requested, extent) == extent - requested < 0
    ensures 0 <= raw <= extent - requested ==> ClampOffset(raw, requested, extent) == raw
    ensures raw < 0 && requested <= extent ==> ClampOffset(raw, requested, extent) == 0
    ensures raw > extent - requested ==> ClampOffset(raw, requested, extent) == extent - requested
  {
  }

  /**
    For a non-negative request and canvas size, the window lies inside
    the canvas if and only if the request fits it in both dimensions.
  */
  lemma CropInsideIffRequestFits(cx: int, cy: int, inputWidth: int, inputHeight: int, cols: int, rows: int)
    requires 0 <= inputWidth && 0 <= inputHeight && 0 <= cols && 0 <= rows
    ensures ContainedIn(CropRect(cx, cy, inputWidth, inputHeight, cols, rows), cols, rows)
        <==> inputWidth <= cols && inputHeight <= rows
  {
  }

  /**
    When the raw corner (centre minus half the request) already lies in the
    allowed range, it is used unchanged, so the window is centred on the
    object (up to the rounding of half the request).
  */
  lemma CentredCornerKept(cx: int, cy: int, inputWidth: int, inputHeight: int, cols: int, rows: int)
    requires 0 <= cx - HalfTowardZero(inputWidth) <= cols - inputWidth
    requires 0 <= cy - HalfTowardZero(inputHeight) <= rows - inputHeight
    ensures CropRect(cx, cy, inputWidth, inputHeight, cols, rows)
         == Rect(cx - HalfTowardZero(inputWidth), cy - HalfTowardZero(inputHeight), inputWidth, inputHeight)
  {
  }

  /**
    A request wider than the canvas: the window shrinks to the canvas width
    but its offset is `cols - inputWidth`, which is negative, so the window
    starts left of the canvas. The same holds for the height.
  */
  lemma OversizeRequestLeavesCanvas(cx: int, cy: int, inputWidth: int, inputHeight: int, cols: int, rows: int)
    requires inputWidth > cols || inputHeight > rows
    ensures var r := CropRect(cx, cy, inputWidth, inputHeight, cols, rows);
      && (inputWidth > cols ==> r.x == cols - inputWidth < 0 && r.width == cols)
      && (inputHeight > rows ==> r.y == rows - inputHeight < 0 && r.height == rows)
      && !ContainedIn(r, cols, rows)
  {
  }

  /**
    A sample input: an object centred at (10, 10) of a 600 by 600 canvas with
    the default 300 by 300 request. The raw corner (-140, -140) is below 0 on
    both axes, so the window is pushed to the top-left corner.
  */
  lemma NearCornerClampsToOrigin()
    ensures CropRect(10, 10, DefaultInputWidth, DefaultInputHeight, 600, 600) == Rect(0, 0, 300, 300)
  {
  }
}
