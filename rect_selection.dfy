/**
  The rectangle selector of the object-extraction program: among the external
  contours found in the binary mask, pick the one whose minimum-area rotated
  rectangle is largest (src/main.rs, step 5).

  The contour tracer and the rectangle fitter are library calls; the fitter is
  a parameter `minAreaRect` here, and a contour is only its point sequence.
  Floating-point sizes are modelled as `real`.
*/
module RectSelection {

  datatype Option<T> = None | Some(value: T)

  /** An integer pixel coordinate. */
  datatype Point = Point(x: int, y: int)

  /** A closed boundary polygon, as the contour tracer reports it. */
  type Contour = seq<Point>

  /** A possibly tilted rectangle: centre, size and angle in degrees. */
  datatype RotatedRect = RotatedRect(centerX: real, centerY: real, width: real, height: real, angle: real)

  /** Contours with fewer points than this are skipped. */
  const MinContourPoints: nat := 3

  /** The score of a rectangle: width times height. */
  function Area(r: RotatedRect): real {
    r.width * r.height
  }

  predicate Qualifies(c: Contour) {
    |c| >= MinContourPoints
  }

  /** The area of the rectangle fitted to contour `i`. */
  function AreaAt(contours: seq<Contour>, minAreaRect: Contour -> RotatedRect, i: nat): real
    requires i < |contours|
  {
    Area(minAreaRect(contours[i]))
  }

  /** The selector's accumulators: the largest area so far and where it came from. */
  datatype Best = Best(largestArea: real, index: Option<nat>)

  /**
    The accumulators after the selection loop has visited the first `n`
    contours: it starts at area 0 with nothing selected, skips short contours
    and replaces the best only on a strictly larger area.
  */
  function Scan(contours: seq<Contour>, minAreaRect: Contour -> RotatedRect, n: nat): (b: Best)
    requires n <= |contours|
    ensures b.index.None? ==> b.largestArea == 0.0
    ensures b.index.Some? ==>
      && b.index.value < n
      && Qualifies(contours[b.index.value])
      && b.largestArea == AreaAt(contours, minAreaRect, b.index.value)
      && b.largestArea > 0.0
  {
    if n == 0 then
      Best(0.0, None)
    else
      var prev := Scan(contours, minAreaRect, n - 1);
      if !Qualifies(contours[n - 1]) then
        prev
      else if AreaAt(contours, minAreaRect, n - 1) > prev.largestArea then
        Best(AreaAt(contours, minAreaRect, n - 1), Some(n - 1))
      else
        prev
  }

  /** The index of the contour the selector keeps, if any. */
  function BestIndex(contours: seq<Contour>, minAreaRect: Contour -> RotatedRect): Option<nat> {
    Scan(contours, minAreaRect, |contours|).index
  }

  /**
    Contour `i` is the best among the first `n`: it qualifies, its area is
    positive, no qualifying contour among the first `n` has a larger area, and
    every earlier qualifying contour has a strictly smaller one.
  */
  ghost predicate IsBestAmong(contours: seq<Contour>, minAreaRect: Contour -> RotatedRect, n: nat, i: nat)
    requires n <= |contours|
  {
    && i < n
    && Qualifies(contours[i])
    && AreaAt(contours, minAreaRect, i) > 0.0
    && (forall j :: 0 <= j < n && Qualifies(contours[j]) ==>
          AreaAt(contours, minAreaRect, j) <= AreaAt(contours, minAreaRect, i))
    && (forall j :: 0 <= j < i && Qualifies(contours[j]) ==>
          AreaAt(contours, minAreaRect, j) < AreaAt(contours, minAreaRect, i))
  }

  /** No qualifying contour among the first `n` has a positive area. */
  ghost predicate NoCandidateAmong(contours: seq<Contour>, minAreaRect: Contour -> RotatedRect, n: nat)
    requires n <= |contours|
  {
    forall j :: 0 <= j < n && Qualifies(contours[j]) ==> AreaAt(contours, minAreaRect, j) <= 0.0
  }

  ghost predicate IsBest(contours: seq<Contour>, minAreaRect: Contour -> RotatedRect, i: nat) {
    IsBestAmong(contours, minAreaRect, |contours|, i)
  }

  ghost predicate NoCandidate(contours: seq<Contour>, minAreaRect: Contour -> RotatedRect) {
    NoCandidateAmong(contours, minAreaRect, |contours|)
  }

  /** The fold agrees with the declarative description on every prefix. */
  lemma {:induction false} ScanIsBestAmong(contours: seq<Contour>, minAreaRect: Contour -> RotatedRect, n: nat)
    requires n <= |contours|
    ensures Scan(contours, minAreaRect, n).index.None? <==> NoCandidateAmong(contours, minAreaRect, n)
    ensures Scan(contours, minAreaRect, n).index.Some? ==>
      IsBestAmong(contours, minAreaRect, n, Scan(contours, minAreaRect, n).index.value)
  {
    if n > 0 {
      ScanIsBestAmong(contours, minAreaRect, n - 1);
      var prev := Scan(contours, minAreaRect, n - 1);
      if prev.index.Some? {
        assert IsBestAmong(contours, minAreaRect, n - 1, prev.index.value);
      }
    }
  }

  /** Two contours cannot both be the best one. */
  lemma IsBestUnique(contours: seq<Contour>, minAreaRect: Contour -> RotatedRect, i: nat, k: nat)
    requires IsBest(contours, minAreaRect, i) && IsBest(contours, minAreaRect, k)
    ensures i == k
  {
  }

  /**
    The selection is exactly the declarative best: contour `i` is selected if
    and only if it is the best, and nothing is selected if and only if no
    qualifying contour has a positive area.
  */
  lemma BestIndexIffIsBest(contours: seq<Contour>, minAreaRect: Contour -> RotatedRect, i: nat)
    ensures BestIndex(contours, minAreaRect) == Some(i) <==> IsBest(contours, minAreaRect, i)
    ensures BestIndex(contours, minAreaRect) == None <==> NoCandidate(contours, minAreaRect)
  {
    ScanIsBestAmong(contours, minAreaRect, |contours|);
    var b := BestIndex(contours, minAreaRect);
    if IsBest(contours, minAreaRect, i) && b.Some? {
      IsBestUnique(contours, minAreaRect, i, b.value);
    }
  }

  /** A contour with fewer than three points is never the selected one. */
  lemma ShortContourNeverSelected(contours: seq<Contour>, minAreaRect: Contour -> RotatedRect, i: nat)
    requires i < |contours| && |contours[i]| < MinContourPoints
    ensures BestIndex(contours, minAreaRect) != Some(i)
  {
  }

  /**
    A contour with zero (or negative) area never wins, because the running
    best starts at 0 and only a strictly larger area replaces it.
  */
  lemma NonPositiveAreaNeverSelected(contours: seq<Contour>, minAreaRect: Contour -> RotatedRect, i: nat)
    requires i < |contours| && AreaAt(contours, minAreaRect, i) <= 0.0
    ensures BestIndex(contours, minAreaRect) != Some(i)
  {
  }

  /** If every qualifying contour has area 0, nothing is selected. */
  lemma AllZeroAreaSelectsNone(contours: seq<Contour>, minAreaRect: Contour -> RotatedRect)
    requires forall j :: 0 <= j < |contours| && Qualifies(contours[j]) ==> AreaAt(contours, minAreaRect, j) == 0.0
    ensures BestIndex(contours, minAreaRect) == None
  {
  }

  /** The selected area is at least that of every contour with three or more points. */
  lemma SelectedIsLargest(contours: seq<Contour>, minAreaRect: Contour -> RotatedRect, i: nat, j: nat)
    requires BestIndex(contours, minAreaRect) == Some(i)
    requires j < |contours| && Qualifies(contours[j])
    ensures i < |contours|
    ensures AreaAt(contours, minAreaRect, j) <= AreaAt(contours, minAreaRect, i)
  {
    BestIndexIffIsBest(contours, minAreaRect, i);
  }

  /**
    On equal areas the earliest contour is kept: a contour whose area equals
    that of an earlier qualifying contour is never selected.
  */
  lemma LaterTieNeverSelected(contours: seq<Contour>, minAreaRect: Contour -> RotatedRect, i: nat, j: nat)
    requires i < j < |contours| && Qualifies(contours[i])
    requires AreaAt(contours, minAreaRect, i) == AreaAt(contours, minAreaRect, j)
    ensures BestIndex(contours, minAreaRect) != Some(j)
  {
    BestIndexIffIsBest(contours, minAreaRect, j);
  }

  /**
    The selection loop. `bestRect` and `bestContour` are set together, in the
    same iteration, to the rectangle and contour at index
    `BestIndex(contours, minAreaRect)`, and are both `None` when it is `None`.
  */
  method SelectBest(contours: seq<Contour>, minAreaRect: Contour -> RotatedRect)
    returns (bestRect: Option<RotatedRect>, bestContour: Option<Contour>)
    ensures BestIndex(contours, minAreaRect).None? ==> bestRect == None && bestContour == None
    ensures BestIndex(contours, minAreaRect).Some? ==>
      var i := BestIndex(contours, minAreaRect).value;
      i < |contours| && bestRect == Some(minAreaRect(contours[i])) && bestContour == Some(contours[i])
  {
    var largestArea := 0.0;
    bestRect := None;
    bestContour := None;
    for i := 0 to |contours|
      invariant largestArea == Scan(contours, minAreaRect, i).largestArea
      invariant Scan(contours, minAreaRect, i).index.None? ==> bestRect == None && bestContour == None
      invariant Scan(contours, minAreaRect, i).index.Some? ==>
        var k := Scan(contours, minAreaRect, i).index.value;
        bestRect == Some(minAreaRect(contours[k])) && bestContour == Some(contours[k])
    {
      var contour := contours[i];
      if |contour| < MinContourPoints {
        continue;
      }
      var rect := minAreaRect(contour);
      var area := Area(rect);
      if area > largestArea {
        largestArea := area;
        bestRect := Some(rect);
        bestContour := Some(contour);
      }
    }
  }
}
