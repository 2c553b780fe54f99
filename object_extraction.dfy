/**
  The decision part of the program's `main` (src/main.rs): select the best
  rectangle, and then either stop with "no suitable rectangle" or compute the
  crop window around the rectangle's centre on a canvas the size of the input
  image (the deskewed image keeps the input's size).

  Image decoding, thresholding, contour tracing, rotation and display are
  library calls outside this model; the contours and the rectangle fitter
  are parameters.
*/
module ObjectExtraction {

  import opened RectSelection
  import opened CropWindow

  /** What one run of the program ends with. */
  datatype Outcome =
    | NoSuitableRect
    | Cropped(contour: Contour, rect: RotatedRect, window: Rect)

  /** The crop window for a selected rectangle, with its centre cast to `i32`. */
  function WindowFor(rect: RotatedRect, cols: int, rows: int, inputWidth: int, inputHeight: int): Rect {
    CropRect(TruncateToI32(rect.centerX), TruncateToI32(rect.centerY), inputWidth, inputHeight, cols, rows)
  }

  /** The outcome of a run, in terms of the selected index. */
  function Extraction(contours: seq<Contour>, minAreaRect: Contour -> RotatedRect,
                      cols: int, rows: int, inputWidth: int, inputHeight: int): Outcome
  {
    match BestIndex(contours, minAreaRect)
    case None => NoSuitableRect
    case Some(i) =>
      var rect := minAreaRect(contours[i]);
      Cropped(contours[i], rect, WindowFor(rect, cols, rows, inputWidth, inputHeight))
  }

  /**
    One run from the traced contours of a `cols` by `rows` image to its
    outcome: the selection loop, then the branch on whether a rectangle was
    found.
  */
  method ExtractObject(contours: seq<Contour>, minAreaRect: Contour -> RotatedRect,
                       cols: int, rows: int, inputWidth: int, inputHeight: int)
    returns (outcome: Outcome)
    ensures outcome == Extraction(contours, minAreaRect, cols, rows, inputWidth, inputHeight)
  {
    var bestRect, bestContour := SelectBest(contours, minAreaRect);
    if bestRect.Some? {
      var rect := bestRect.value;
      // The contour is drawn when present; it always is when a rectangle is.
      assert bestContour.Some?;
      var cx := TruncateToI32(rect.centerX);
      var cy := TruncateToI32(rect.centerY);
      var window := CropRect(cx, cy, inputWidth, inputHeight, cols, rows);
      outcome := Cropped(bestContour.value, rect, window);
    } else {
      outcome := NoSuitableRect;
    }
  }

  /**
    A run stops with "no suitable rectangle" exactly when no contour with at
    least three points has a rectangle of positive area; otherwise it crops
    around the best contour's rectangle.
  */
  lemma AbortsIffNoCandidate(contours: seq<Contour>, minAreaRect: Contour -> RotatedRect,
                             cols: int, rows: int, inputWidth: int, inputHeight: int)
    ensures Extraction(contours, minAreaRect, cols, rows, inputWidth, inputHeight) == NoSuitableRect
        <==> NoCandidate(contours, minAreaRect)
    ensures Extraction(contours, minAreaRect, cols, rows, inputWidth, inputHeight).Cropped? ==>
      var o := Extraction(contours, minAreaRect, cols, rows, inputWidth, inputHeight);
      exists i: nat :: IsBest(contours, minAreaRect, i) && o.contour == contours[i] && o.rect == minAreaRect(contours[i])
  {
    var b := BestIndex(contours, minAreaRect);
    BestIndexIffIsBest(contours, minAreaRect, if b.Some? then b.value else 0);
  }

  /**
    With the default 300 by 300 request on an image at least that large, the
    crop window of a run lies inside the image and has the requested size.
  */
  lemma DefaultCropInsideImage(contours: seq<Contour>, minAreaRect: Contour -> RotatedRect, cols: int, rows: int)
    requires DefaultInputWidth <= cols && DefaultInputHeight <= rows
    ensures var o := Extraction(contours, minAreaRect, cols, rows, DefaultInputWidth, DefaultInputHeight);
      o.Cropped? ==>
        && ContainedIn(o.window, cols, rows)
        && o.window.width == DefaultInputWidth && o.window.height == DefaultInputHeight
  {
  }
}
