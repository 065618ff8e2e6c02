# Laser rangefinder: distance estimation model

The rangefinder watches a webcam image for a laser dot. Each frame, it takes the first
bright contour and its centroid. It then converts the centroid's vertical pixel position
to a distance in centimetres. The conversion uses a hand-measured calibration table and
piecewise-linear interpolation. This project models that per-frame estimation step and
proves properties about it:

- `calibration.dfy` (module `Calibration`): the two constant tables (pixel rows and
  centimetres) and what a valid table is. A valid table has two sequences of equal
  length, at least two entries, and strictly increasing pixel rows.
- `interpolation.dfy` (module `Interpolation`):
  - the range guard, where both bounds are strict;
  - the linear scan for the bracketing segment, written both as a `while` loop
    (`FindSegment`) and as a recursive reference (`SegmentFrom`);
  - the interpolation formula;
  - the lookup, written both as a function (`Lookup`) and as a program (`LookupLoop`).
- `rangefinder.dfy` (module `Rangefinder`): the guard chain around the lookup. A frame
  needs at least one contour, positive area, and a centroid row inside the table's
  domain. Also the centroid computation and the estimate with the built-in table.
- `wrappers.dfy` (module `Wrappers`): the `Option` type used for "no estimate".

The program uses doubles. The model uses `real`, so every result is exact.

Two details of the code that the model keeps:

- The centroid guard is `m00 > 0`. A negative area moment therefore also gives no
  estimate, not only an area of exactly zero.
- A row strictly between two breakpoints is interpolated on the segment that holds it:
  on the built-in table, row 108 lies between 94 and 122 and gives
  30 + 14·10/28 = 35.0 (`ConstantTableExamples`).

## Model

| member | source | states |
|---|---|---|
| Calibration.ConstantTablesValid | Src/laser.cpp:25-26 | The built-in tables both have 9 entries. The pixel rows strictly increase, so the tables meet the lookup's preconditions. The distances also strictly increase, from 20 to 100 cm, and the domain runs from 42 to 171. |
| Interpolation.InRange | Src/laser.cpp:77 | The range guard accepts a row only strictly between pixel[0] and pixel[last]. Passing it implies the table has at least two entries with pixel[0] < pixel[last], so the scan's first read, pixel[1], is in bounds. |
| Interpolation.Segment | Src/laser.cpp:80-84 | For any row that passes the range guard, the scan from segment 0 settles on a segment k with k+1 a valid index and pixel[k] < y <= pixel[k+1], and no earlier segment brackets y: it is the first bracketing segment, for any table. |
| Interpolation.Interpolate | Src/laser.cpp:86 | The formula is defined only when the divisor pixel[i+1]-pixel[i] is positive, so it never divides by zero. The point (y, r) lies on the straight line through (pixel[i], cm[i]) and (pixel[i+1], cm[i+1]). |
| Interpolation.SegmentFrom | Src/laser.cpp:80-84 | Scanning up from segment i stops on a segment at or after i that brackets y (lower end excluded, upper end included). No segment it skips brackets y. |
| Interpolation.FindSegment | Src/laser.cpp:77-84 | The range guard alone keeps the scan in bounds: with y strictly inside the domain the loop terminates, on the last segment at the latest, for any table. On exit i+1 is a valid index, so pixel[i+1], cm[i] and cm[i+1] are in bounds. The segment brackets y, no earlier segment does, and the divisor pixel[i+1]-pixel[i] is positive. |
| Interpolation.BracketsUnique | Src/laser.cpp:80-84 | In a strictly increasing table at most one segment brackets a row, so the first bracketing segment is the only one. |
| Interpolation.Lookup | Src/laser.cpp:77-86 | There is no estimate exactly when y <= pixel[0] or y >= pixel[last]. Both bounds are strict. Otherwise the estimate is the interpolation on a segment that brackets y. |
| Interpolation.LookupLoop | Src/laser.cpp:77-86 | The range guard, the scan and the interpolation, run as a program, give no estimate exactly outside the open domain. Otherwise they give the same distance as the declarative `Lookup`. |
| Interpolation.InterpolateAtEnds | Src/laser.cpp:86 | A segment's formula returns cm[i] at pixel[i] and cm[i+1] at pixel[i+1]. |
| Interpolation.ContinuousAtBreakpoint | Src/laser.cpp:86 | Two neighbouring segments give the same value at their shared breakpoint, so the piecewise-linear curve has no jump. |
| Interpolation.LookupAtBreakpoint | Src/laser.cpp:77-86 | Looking up any interior breakpoint pixel[k] returns exactly cm[k]. |
| Interpolation.InterpolateBetween | Src/laser.cpp:86 | Take a segment whose distances increase and a row it brackets. The interpolated distance is above cm[i] and at most cm[i+1]. It is strictly below cm[i+1] when the row is strictly below pixel[i+1]. |
| Interpolation.LookupWithinDistances | Src/laser.cpp:77-86 | If the distances strictly increase, every estimate lies strictly between the first and last distance in the table. |
| Interpolation.SegmentMonotone | Src/laser.cpp:80-84 | A larger row never lands on an earlier segment. |
| Interpolation.InterpolateIncreasing | Src/laser.cpp:86 | On a segment whose distances increase, a larger row gives a strictly larger distance. |
| Interpolation.LookupIncreasing | Src/laser.cpp:77-86 | If the distances strictly increase, then of two rows inside the domain, the larger row gives the strictly larger estimate. |
| Rangefinder.Centroid | Src/laser.cpp:70-74 | A centroid exists exactly when the area moment m00 is positive. Its coordinates, scaled by m00, give back the first moments m10 and m01. |
| Rangefinder.EstimateWith | Src/laser.cpp:65-86 | An estimate exists exactly when there is at least one contour, m00 > 0, and the centroid row m01/m00 is strictly inside the table's domain. The estimate holds the centroid and the table's distance for its row. |
| Rangefinder.Estimate | Src/laser.cpp:65-86 | With the built-in table, an estimate exists exactly when there is a contour, m00 > 0 and 42 < m01/m00 < 171. Its dot is the centroid, its distance is the table lookup at the centroid row, and every distance it reports lies strictly between 20 and 100 cm. |
| Rangefinder.ConstantTableExamples | Src/laser.cpp:25-26 | On the built-in table: row 94 gives 30 exactly, row 108 gives 35, and row 168 gives 90. Rows 42 and 171 give no estimate. |
| Rangefinder.EstimateExamples | Src/laser.cpp:65-86 | Moments (2, 640, 188) read 30 cm at dot (320, 94). The same moments give nothing when there is no contour. Area 0 also gives nothing. |

## Left out

- Camera capture, resolution setup, and the exit with status -1 when no camera opens (lines 34-43): device I/O.
- Grayscale conversion, thresholding, contour extraction and image moments (lines 58-62, 68): these are imaging-library calls whose code is not part of this model. The contour count and the first contour's moments `m00`, `m10`, `m01` are inputs instead.
- Which contour comes first: this depends on the contour-tracing algorithm. The model takes the first contour's moments as given.
- The window, the circle and text overlay, the display and the key-press exit of the endless frame loop (lines 46, 91-92, 97-103): presentation and event loop.
- Console output of the coordinates and distance, and number formatting (lines 88, 92): I/O.
- The catch-and-log exception handler (lines 106-109): with the guards in place, the modelled step raises nothing.
- Double-precision rounding: arithmetic is over `real`. The model proves exact continuity and exact breakpoint values, which rounding may break.
- The unsigned 32-bit loop index (line 80): it cannot overflow, because the scan never passes the table's last index (at most 8 with the built-in table).
- Determinism: every lookup is a pure function of its inputs, so repeating a lookup with the same inputs gives the same result. No separate statement is needed.
