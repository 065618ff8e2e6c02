/** Piecewise-linear conversion of a pixel row to a distance, as done inside
    the frame loop of Src/laser.cpp (lines 77-86): a range guard, a linear
    scan for the bracketing segment, and linear interpolation on it. */
module Interpolation {
  import opened Wrappers
  import opened Calibration

  /** The interpolation domain: strictly between the first and last pixel
      rows; both bounds are excluded. */
  function InRange(y: real, pixel: seq<real>): (b: bool)
    requires |pixel| >= 1
    ensures b ==> |pixel| >= 2 && pixel[0] < pixel[|pixel| - 1]
  {
    pixel[0] < y < pixel[|pixel| - 1]
  }

  /** Segment `i` (from `pixel[i]` to `pixel[i + 1]`) brackets `y`, with the
      lower end excluded and the upper end included. */
  predicate Brackets(y: real, pixel: seq<real>, i: int) {
    0 <= i && i + 1 < |pixel| && pixel[i] < y <= pixel[i + 1]
  }

  /** Reference form of the scan: from segment `i`, move up while `y` lies
      above the segment's upper end. */
  function SegmentFrom(y: real, pixel: seq<real>, i: nat): (k: nat)
    requires i + 1 < |pixel|
    requires pixel[i] < y < pixel[|pixel| - 1]
    ensures i <= k
    ensures Brackets(y, pixel, k)
    ensures forall j :: i <= j < k ==> !Brackets(y, pixel, j)
    decreases |pixel| - i
  {
    if y > pixel[i + 1] then SegmentFrom(y, pixel, i + 1) else i
  }

  /** The segment the scan settles on when it starts at the first one. */
  function Segment(y: real, pixel: seq<real>): (k: nat)
    requires |pixel| >= 2
    requires InRange(y, pixel)
    ensures Brackets(y, pixel, k)
    ensures forall j :: 0 <= j < k ==> !Brackets(y, pixel, j)
  {
    SegmentFrom(y, pixel, 0)
  }

  /** At most one segment brackets a given row. */
  lemma {:induction false} BracketsUnique(y: real, pixel: seq<real>, i: int, j: int)
    requires StrictlyIncreasing(pixel)
    requires Brackets(y, pixel, i) && Brackets(y, pixel, j)
    ensures i == j
  {
    if i < j {
      IncreasingMonotone(pixel, i + 1, j);
    } else if j < i {
      IncreasingMonotone(pixel, j + 1, i);
    }
  }

  /** Linear interpolation on segment `i`. The divisor is the segment's
      width, which a strictly increasing table keeps positive. */
  function Interpolate(pixel: seq<real>, cm: seq<real>, i: nat, y: real): (r: real)
    requires |pixel| == |cm|
    requires i + 1 < |pixel|
    requires pixel[i] < pixel[i + 1]
    ensures (r - cm[i]) * (pixel[i + 1] - pixel[i]) == (y - pixel[i]) * (cm[i + 1] - cm[i])
  {
    cm[i] + (y - pixel[i]) * (cm[i + 1] - cm[i]) / (pixel[i + 1] - pixel[i])
  }

  /** The distance for pixel row `y`, or None outside the table's domain. */
  function Lookup(y: real, pixel: seq<real>, cm: seq<real>): (r: Option<real>)
    requires ValidTable(pixel, cm)
    ensures r.None? <==> (y <= pixel[0] || y >= pixel[|pixel| - 1])
    ensures r.Some? ==> exists i :: Brackets(y, pixel, i) && r.value == Interpolate(pixel, cm, i, y)
  {
    if InRange(y, pixel) then
      var i := Segment(y, pixel);
      Some(Interpolate(pixel, cm, i, y))
    else
      None
  }

  /** The scan of lines 80-84: starting at segment 0, advance while `y` lies
      above the current segment's upper end. The range guard alone keeps it
      in bounds: it stops, at the latest, on the last segment, because `y`
      is below the last pixel row. It stops on the first segment that
      brackets `y`. */
  method FindSegment(y: real, pixel: seq<real>) returns (i: nat)
    requires |pixel| >= 2
    requires InRange(y, pixel)
    ensures i + 1 < |pixel|
    ensures pixel[i] < y <= pixel[i + 1]
    ensures forall j :: 0 <= j < i ==> !Brackets(y, pixel, j)
    ensures 0.0 < pixel[i + 1] - pixel[i]
  {
    i := 0;
    while y > pixel[i + 1]
      invariant i + 1 < |pixel|
      invariant pixel[i] < y
      invariant forall j :: 0 <= j < i ==> !Brackets(y, pixel, j)
      decreases |pixel| - i
    {
      i := i + 1;
    }
  }

  /** Lines 77-86 as a program: the range guard, the scan, and the
      interpolation; it computes what `Lookup` describes. */
  method LookupLoop(y: real, pixel: seq<real>, cm: seq<real>) returns (r: Option<real>)
    requires ValidTable(pixel, cm)
    ensures r.None? <==> (y <= pixel[0] || y >= pixel[|pixel| - 1])
    ensures r == Lookup(y, pixel, cm)
  {
    if y > pixel[0] && y < pixel[|pixel| - 1] {
      var i := FindSegment(y, pixel);
      BracketsUnique(y, pixel, i, Segment(y, pixel));
      r := Some(Interpolate(pixel, cm, i, y));
    } else {
      r := None;
    }
  }

  /** A segment's formula reproduces the measured distances at both of its
      ends. */
  lemma InterpolateAtEnds(pixel: seq<real>, cm: seq<real>, i: nat)
    requires |pixel| == |cm|
    requires i + 1 < |pixel|
    requires pixel[i] < pixel[i + 1]
    ensures Interpolate(pixel, cm, i, pixel[i]) == cm[i]
    ensures Interpolate(pixel, cm, i, pixel[i + 1]) == cm[i + 1]
  {
  }

  /** Neighbouring segments agree at their shared breakpoint, so the
      piecewise-linear curve is continuous. */
  lemma ContinuousAtBreakpoint(pixel: seq<real>, cm: seq<real>, i: nat)
    requires ValidTable(pixel, cm)
    requires i + 2 < |pixel|
    ensures Interpolate(pixel, cm, i, pixel[i + 1]) == Interpolate(pixel, cm, i + 1, pixel[i + 1])
  {
  }

  /** Looking up a breakpoint returns its measured distance exactly. */
  lemma LookupAtBreakpoint(pixel: seq<real>, cm: seq<real>, k: nat)
    requires ValidTable(pixel, cm)
    requires 0 < k < |pixel| - 1
    ensures Lookup(pixel[k], pixel, cm) == Some(cm[k])
  {
    IncreasingPairwise(pixel, 0, k);
    IncreasingPairwise(pixel, k, |pixel| - 1);
    assert Brackets(pixel[k], pixel, k - 1);
    BracketsUnique(pixel[k], pixel, k - 1, Segment(pixel[k], pixel));
    InterpolateAtEnds(pixel, cm, k - 1);
  }

  /** On a segment whose distances increase, the interpolated distance lies
      above the lower end and at most the upper end, strictly below it when
      `y` is strictly below the upper pixel row. */
  lemma InterpolateBetween(pixel: seq<real>, cm: seq<real>, i: nat, y: real)
    requires |pixel| == |cm|
    requires Brackets(y, pixel, i)
    requires cm[i] < cm[i + 1]
    ensures cm[i] < Interpolate(pixel, cm, i, y) <= cm[i + 1]
    ensures y < pixel[i + 1] ==> Interpolate(pixel, cm, i, y) < cm[i + 1]
  {
    var a := y - pixel[i];
    var w := pixel[i + 1] - pixel[i];
    var d := cm[i + 1] - cm[i];
    assert 0.0 < a <= w && 0.0 < d;
    assert 0.0 < a * d;
    assert a * d <= w * d;
    assert a * d / w <= d;
    assert y < pixel[i + 1] ==> a * d < w * d;
  }

  /** With increasing distances, every produced estimate lies strictly
      between the first and last measured distance. */
  lemma LookupWithinDistances(y: real, pixel: seq<real>, cm: seq<real>)
    requires ValidTable(pixel, cm)
    requires StrictlyIncreasing(cm)
    ensures Lookup(y, pixel, cm).Some? ==> cm[0] < Lookup(y, pixel, cm).value < cm[|cm| - 1]
  {
    if InRange(y, pixel) {
      var i := Segment(y, pixel);
      var last := |cm| - 1;
      InterpolateBetween(pixel, cm, i, y);
      IncreasingMonotone(cm, 0, i);
      if i + 1 < last {
        IncreasingPairwise(cm, i + 1, last);
      }
    }
  }

  /** A row further down never lies on an earlier segment. */
  lemma SegmentMonotone(y1: real, y2: real, pixel: seq<real>)
    requires StrictlyIncreasing(pixel)
    requires |pixel| >= 2
    requires InRange(y1, pixel) && InRange(y2, pixel)
    requires y1 <= y2
    ensures Segment(y1, pixel) <= Segment(y2, pixel)
  {
    var i1, i2 := Segment(y1, pixel), Segment(y2, pixel);
    if i2 < i1 {
      IncreasingMonotone(pixel, i2 + 1, i1);
    }
  }

  /** On one segment with increasing distances, the formula is strictly
      increasing in the pixel row. */
  lemma InterpolateIncreasing(pixel: seq<real>, cm: seq<real>, i: nat, y1: real, y2: real)
    requires |pixel| == |cm|
    requires i + 1 < |pixel|
    requires pixel[i] < pixel[i + 1]
    requires cm[i] < cm[i + 1]
    requires y1 < y2
    ensures Interpolate(pixel, cm, i, y1) < Interpolate(pixel, cm, i, y2)
  {
  }

  /** With increasing distances, a larger pixel row always gives a larger
      estimate: the conversion is strictly increasing over its domain. */
  lemma LookupIncreasing(y1: real, y2: real, pixel: seq<real>, cm: seq<real>)
    requires ValidTable(pixel, cm)
    requires StrictlyIncreasing(cm)
    requires InRange(y1, pixel) && InRange(y2, pixel)
    requires y1 < y2
    ensures Lookup(y1, pixel, cm).value < Lookup(y2, pixel, cm).value
  {
    var i1, i2 := Segment(y1, pixel), Segment(y2, pixel);
    SegmentMonotone(y1, y2, pixel);
    if i1 == i2 {
      InterpolateIncreasing(pixel, cm, i1, y1, y2);
    } else {
      InterpolateBetween(pixel, cm, i1, y1);
      InterpolateBetween(pixel, cm, i2, y2);
      IncreasingMonotone(cm, i1 + 1, i2);
    }
  }
}
