# Rotated-object extraction: verified model of the decision logic

The program loads a photograph and thresholds it into an inverted binary mask.
It traces the external contours of the mask, fits a minimum-area rotated
rectangle to each contour, and keeps the contour whose rectangle is largest.
It then rotates the image about that rectangle's centre and crops a 300 by 300
window around the centre. Everything except two pieces is a call into OpenCV.
This project models those two pieces and proves their properties:

- **Rectangle selection** (`RectSelection`, `rect_selection.dfy`). This is the
  "largest so far" loop over the contours. Contours with fewer than 3 points
  are skipped. The running best area starts at 0, and a contour replaces the
  best only when its area is strictly greater. The best rectangle and the best
  contour are set together. `SelectBest` is that loop, written as a method.
  It is proved against `Scan`, a fold that gives the loop's accumulators after
  each prefix of the contours. `IsBest` and `NoCandidate` describe the selected
  contour declaratively, and `BestIndexIffIsBest` proves that the fold and the
  declarative description agree, in both directions.
- **Crop window** (`CropWindow`, `crop_window.dfy`). This is the integer clamp
  arithmetic on the truncated centre, the requested size and the canvas size.
  It is written as a pure function, `CropRect`, with lemmas about it. The
  float-to-`i32` cast of the centre is `TruncateToI32`, and the rounding of
  `i32` division is `HalfTowardZero`.
- **The branch in `main`** (`ObjectExtraction`, `object_extraction.dfy`).
  `main` either reports "no suitable rectangle" or crops around the selected
  rectangle. The canvas is the input image's size, because both affine warps
  are given the input image's size as their output size.

The rectangle fitter (`min_area_rect`) is a parameter, `minAreaRect`, of type
`Contour -> RotatedRect`. A contour is its point sequence. Floating-point
sizes are `real`.

Two behaviours of the code are worth stating, because one might expect
otherwise:

- One might expect the crop window always to lie inside the image, even when
  the requested size is larger than the image. In the code, the upper clamp
  subtracts the requested size, not the clamped one. So a request wider (or
  taller) than the canvas gives a negative offset. `OversizeRequestLeavesCanvas`
  states this, and `CropInsideIffRequestFits` shows that the window lies inside
  exactly when the request fits.
- The code does not check for a degenerate (empty) clamped window, so the
  model has no such error either.

## Model

| member | source | states |
|---|---|---|
| `RectSelection.Scan` | src/main.rs:52-69 | After any prefix of the contours, the accumulators are either (area 0, nothing) or (the fitted area of an earlier contour with at least 3 points, that contour's index), and that area is strictly positive |
| `RectSelection.SelectBest` | src/main.rs:52-69 | The loop leaves `bestRect` and `bestContour` both `None`, or both set from the same contour index: the one the fold selects |
| `RectSelection.ScanIsBestAmong` | src/main.rs:56-69 | On every prefix, the fold selects nothing exactly when no qualifying contour there has positive area; otherwise it selects one that is the best of that prefix |
| `RectSelection.IsBestUnique` | src/main.rs:64 | At most one contour satisfies the declarative "best" description, because ties go to the earliest contour |
| `RectSelection.BestIndexIffIsBest` | src/main.rs:52-69 | Contour `i` is selected if and only if it is the declarative best. Nothing is selected if and only if no contour with at least 3 points has positive area |
| `RectSelection.ShortContourNeverSelected` | src/main.rs:58-60 | A contour with fewer than 3 points is never the selected one |
| `RectSelection.NonPositiveAreaNeverSelected` | src/main.rs:52-64 | A contour whose rectangle has area 0 or less is never selected, because the best starts at 0.0 and the comparison is strict |
| `RectSelection.AllZeroAreaSelectsNone` | src/main.rs:52-64 | If every qualifying contour has area 0, the selection is `None` |
| `RectSelection.SelectedIsLargest` | src/main.rs:56-69 | The selected area is at least the area of every contour with 3 or more points |
| `RectSelection.LaterTieNeverSelected` | src/main.rs:64-67 | A contour whose area equals that of an earlier qualifying contour is never selected, so the earliest one wins a tie |
| `CropWindow.TruncateToI32` | src/main.rs:132-133 | The `as i32` cast of the centre rounds toward zero inside the 32-bit range and saturates outside it |
| `CropWindow.HalfTowardZero` | src/main.rs:132-133 | `input_width / 2` on `i32` rounds toward zero, for negative sizes as well |
| `CropWindow.CropRect` | src/main.rs:132-140 | The window's width is the smaller of the requested width and `cols`, and its height likewise with `rows`. Its offsets never exceed `cols - input_width` and `rows - input_height` |
| `CropWindow.ClampOffsetRange` | src/main.rs:136-137 | Per axis: if the request fits, the offset lies in `[0, extent - requested]`. If it does not, the offset is `extent - requested`, which is negative. An in-range raw corner is kept unchanged. A raw corner below 0 goes to 0 when the request fits, and one above `extent - requested` goes to that bound |
| `CropWindow.CropInsideIffRequestFits` | src/main.rs:132-140 | For non-negative sizes, the window lies inside the canvas if and only if the requested width and height fit it |
| `CropWindow.CentredCornerKept` | src/main.rs:132-140 | When the raw corner (centre minus half the request) is already in range, the window is exactly that corner with the requested size |
| `CropWindow.OversizeRequestLeavesCanvas` | src/main.rs:136-139 | A request larger than the canvas gives the offset `cols - input_width < 0` (or the same for rows), with the size clamped to the canvas. The window then is not inside the canvas |
| `CropWindow.NearCornerClampsToOrigin` | src/main.rs:132-140 | On a sample input (centre (10, 10), a 600 by 600 canvas, the built-in 300 by 300 request from src/main.rs:14-15), the raw corner is below 0 on both axes, so the window is (0, 0, 300, 300): an instance of the lower clamp |
| `ObjectExtraction.ExtractObject` | src/main.rs:52-148 | One run gives the outcome of the selection followed by the `Some`/`None` branch: either "no suitable rectangle", or the best contour, its rectangle and the crop window around the rectangle's truncated centre, on a canvas of the input's size |
| `ObjectExtraction.AbortsIffNoCandidate` | src/main.rs:72-148 | A run reports "no suitable rectangle" if and only if no contour with at least 3 points has positive area. Otherwise it crops around the declaratively best contour |
| `ObjectExtraction.DefaultCropInsideImage` | src/main.rs:101-140 | With the built-in 300 by 300 request on an image at least that large, the crop window lies inside the image and has exactly the requested size |

## Left out

- Image loading and the empty-image check (src/main.rs:18-21): file I/O.
- Grayscale conversion, Otsu inverted thresholding and contour tracing (src/main.rs:25, 33, 41-47): OpenCV calls. Their result, the contour list, is an input.
- Minimum-area-rectangle fitting (src/main.rs:61) is an OpenCV call. It is the parameter `minAreaRect`. Its error return is not modelled, because the fitter does not fail on a contour with 3 or more points.
- Rotation-matrix construction and both affine warps (src/main.rs:98-125) are OpenCV calls. Only their output size is used: the input image's size.
- `Mat::roi` (src/main.rs:142) is a library view. The model stops at the computed rectangle. It does not model the error that `roi` raises for a window outside the image.
- Display, drawing and printing (`imshow`, `wait_key`, `draw_contours`, `println!`) are UI and logging only.
- RectSelection.Area: `f32` rounding of `width * height` and of the comparison is not modelled, because areas are exact `real`s.
- CropWindow.TruncateToI32: a NaN centre, which the cast maps to 0, has no `real` counterpart.
- CropWindow.CropRect: `i32` overflow of `cx - input_width / 2` and `cols - input_width` is not modelled, because the model uses unbounded integers. Neither can overflow for a centre that lies inside an image and the built-in 300 by 300 request.
