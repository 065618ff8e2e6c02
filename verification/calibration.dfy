/** The hand-measured calibration table of the rangefinder: two parallel
    sequences mapping the vertical pixel position of the laser dot to the
    distance in centimetres (Src/laser.cpp, lines 25-26). Doubles are
    modelled as `real`. */
module Calibration {

  /** Every entry is strictly smaller than its successor. */
  predicate StrictlyIncreasing(s: seq<real>) {
    forall i :: 0 <= i < |s| - 1 ==> s[i] < s[i + 1]
  }

  /** What the interpolation needs of a table: parallel sequences of equal
      length, at least one segment, and strictly increasing pixel positions. */
  predicate ValidTable(pixel: seq<real>, cm: seq<real>) {
    && |pixel| == |cm|
    && |pixel| >= 2
    && StrictlyIncreasing(pixel)
  }

  /** Measured pixel rows of the laser dot. */
  const Pixel: seq<real> := [42.0, 94.0, 122.0, 139.0, 150.0, 157.0, 163.0, 168.0, 171.0]

  /** Measured distances, in centimetres, for the rows in `Pixel`. */
  const Cm: seq<real> := [20.0, 30.0, 40.0, 50.0, 60.0, 70.0, 80.0, 90.0, 100.0]

  /** Strict increase between neighbours extends to any two positions. */
  lemma {:induction false} IncreasingPairwise(s: seq<real>, i: nat, j: nat)
    requires StrictlyIncreasing(s)
    requires i < j < |s|
    ensures s[i] < s[j]
    decreases j - i
  {
    if i + 1 < j {
      IncreasingPairwise(s, i + 1, j);
    }
  }

  /** The same, allowing the two positions to coincide. */
  lemma IncreasingMonotone(s: seq<real>, i: nat, j: nat)
    requires StrictlyIncreasing(s)
    requires i <= j < |s|
    ensures s[i] <= s[j]
  {
    if i < j {
      IncreasingPairwise(s, i, j);
    }
  }

  /** The constant tables meet the interpolation's preconditions, and the
      distances grow with the pixel row as well. */
  lemma ConstantTablesValid()
    ensures ValidTable(Pixel, Cm)
    ensures StrictlyIncreasing(Cm)
    ensures |Pixel| == |Cm| == 9
    ensures Pixel[0] == 42.0 && Pixel[|Pixel| - 1] == 171.0
    ensures Cm[0] == 20.0 && Cm[|Cm| - 1] == 100.0
  {
  }
}
