# Race visualiser and coordinate normaliser, modelled in Dafny

This project models the pure parts of two small Python scripts.

- `f1.py` animates a marker around a closed polygonal track. The marker's speed comes from a list of lap times. The script also shows a lap timer and a lap counter.
- `norm.py` rescales a list of integer coordinate pairs, axis by axis, onto the range 10..990.

All arithmetic is exact. Python floats become Dafny `real`. Python's unbounded `int` becomes `int`. Each truncation or floor the scripts perform is written out explicitly. Python computes these values in IEEE-754 floating point, so its results can differ from the exact ones at rare boundary values. This model does not follow that rounding.

Modules, one per component:

- `Normalize` (`normalize.dfy`): the normaliser of `norm.py`. It computes the extrema of each axis, rescales with the exact floor of `(v - min) * 980 / (max - min) + 10`, and models both failure cases. An empty list fails because `min()` raises. An axis whose values are all equal fails because of the division by zero; the x axis is checked first, as in the script.
- `PathLength` (`path_length.dfy`): `calculate_path_length` as a loop over the closed path. The Euclidean edge length is an abstract function argument.
- `RaceState` (`race_state.dfy`): the vertex and lap bookkeeping of the frame loop, as a pure `Step` function over `(position, current, next, lap)`. Two things are inputs: whether the frame reached the next vertex, and where the float movement put the marker when it did not.
- `Viewport` (`viewport.dfy`): `scale_point`, the letterbox transform from the 1000 x 1000 logical plane to the window, with `int()` truncation towards zero.
- `Decimal` (`decimal.dfy`) and `TimerFormat` (`timer_format.dfy`): `format_time`. This splits seconds into hours, minutes, seconds and milliseconds, then writes them zero-padded as `HH:MM:SS.mmm`.
- `Arith` and `Geometry`: shared division/remainder facts and the logical point type.

Two modelling choices in `Normalize`:

- `norm.py` truncates with `int(...)`. The quotient it truncates is never negative, so the model takes the floor of the exact quotient.
- A flat axis raises `ZeroDivisionError` at norm.py:21 (x) or norm.py:22 (y). The model returns `Failed(FlatXRange)` or `Failed(FlatYRange)` instead.

## Model

| member | source | states |
|---|---|---|
| `Normalize.Min` | norm.py:8-11 | The minimum of a non-empty column is one of its elements and is at most every element. |
| `Normalize.Max` | norm.py:8-11 | The maximum of a non-empty column is one of its elements and is at least every element. |
| `Normalize.Extrema` | norm.py:8-11 | Each of min_x, max_x, min_y and max_y is attained by some input point and bounds every point on its axis. |
| `Normalize.Rescale` | norm.py:14-22 | A value in [lo, hi] maps into [10, 990]. The result minus 10 is the exact floor of (v - lo) * 980 / (hi - lo), stated as a two-sided product inequality. |
| `Normalize.RescaleMonotone` | norm.py:21-22 | Rescaling keeps order: v <= w implies rescale(v) <= rescale(w). |
| `Normalize.RescaleEndpoints` | norm.py:21-22 | The axis minimum maps to exactly 10 and the axis maximum to exactly 990. |
| `Normalize.RescaleFixed` | norm.py:14-22 | Rescaling from 10..990 onto 10..990 is the identity. |
| `Normalize.Normalize` | norm.py:8-23 | Fails with EmptyInput exactly when the list is empty. Fails with FlatXRange exactly when all x are equal. Fails with FlatYRange exactly when the x values differ but all y are equal. Otherwise the output has the input's length and every coordinate lies in [10, 990]. |
| `Normalize.NormalizeAt` | norm.py:19-23 | Output point i comes from input point i, so order is kept. Its x is the floor of the linear map of input x between the x extrema, and likewise its y. |
| `Normalize.NormalizeEndpoints` | norm.py:21-22 | A point whose coordinate is least on its axis gets 10 there, and a point whose coordinate is greatest gets 990. |
| `Normalize.NormalizeMonotone` | norm.py:21-22 | Per axis, x_i <= x_j implies out_x_i <= out_x_j, and likewise for y. |
| `Normalize.NormalizeColumnwise` | norm.py:19-23 | Two inputs with the same x column give the same output x column, whatever their y columns; likewise for y. |
| `Normalize.NormalizedExtent` | norm.py:8-23 | A successful output has extrema exactly 10 and 990 on both axes. |
| `Normalize.NormalizeIdempotent` | norm.py:8-23 | Normalising an already normalised list returns it unchanged. |
| `Normalize.NormalizeExample` | norm.py:8-23 | (0,0), (10,10), (5,5) normalise to (10,10), (990,990), (500,500). |
| `PathLength.EdgeLengths` | f1.py:33-36 | There is exactly one edge per vertex. Edge i joins vertex i to vertex i+1, and the last edge closes the path from the last vertex to the first. |
| `PathLength.SuccIsModulo` | f1.py:35 | The successor index used by the model equals the script's `(i + 1) % len(coords)`. |
| `PathLength.CalculatePathLength` | f1.py:31-37 | The loop's total equals the sum of the closed path's edges: the open polyline plus the closing edge. It is 0 for an empty list and non-negative when edge lengths are non-negative. |
| `PathLength.ClosedIsOpenPlusClosing` | f1.py:31-37 | The closed length is the open polyline's length plus the edge from the last vertex back to the first. |
| `PathLength.RotationInvariant` | f1.py:31-37 | The path length is the same whichever vertex the list starts from. |
| `RaceState.Start` | f1.py:77-87 | Given at least two vertices and one lap time, the start state is at vertex 0, heading for vertex 1, in lap 0, and satisfies the loop invariant. |
| `RaceState.Step` | f1.py:108-118 | Preserves 0 <= current < n, next == (current+1) mod n and 0 <= lap < L. On arrival the position snaps to the target vertex and current becomes the old next. Otherwise only the position changes. The lap moves on (mod L) exactly when the marker arrives at vertex 0. |
| `RaceState.NextIsOneAfterZero` | f1.py:110-113 | With n >= 2, the script's test `next_point == 1` after advancing holds exactly when the vertex just reached is 0. |
| `RaceState.Run` | f1.py:94-118 | Any sequence of frames keeps the loop invariant. |
| `RaceState.ArrivalAdvances` | f1.py:108-116 | A frame with an arrival moves the arrival count on by one. A frame without one leaves it unchanged. |
| `RaceState.RunFromStart` | f1.py:82-118 | From the start, after k arrivals the marker is at vertex k mod n, heading for (k+1) mod n, in lap (k div n) mod L, whatever the frames in between. |
| `RaceState.RunWithoutArrival` | f1.py:116-118 | Frames without an arrival leave current vertex, next vertex and lap unchanged. |
| `Viewport.Trunc` | f1.py:46 | `int()` truncates towards zero: within one unit below a non-negative value, within one unit above a negative one. |
| `Viewport.Fit` | f1.py:39-45 | The scale is the smaller of the two ratios, so the 1000 x 1000 plane fits and fills one axis exactly. Both offsets are non-negative. The offset on the filled axis is 0. The margins on either side are equal. |
| `Viewport.FitIsLargest` | f1.py:42 | Every uniform scale at which the plane fits is at most the chosen scale. |
| `Viewport.PlaceInvertible` | f1.py:42-46 | For a non-empty window the exact placement, before truncation, can be undone to recover the logical point. |
| `Viewport.ScalePoint` | f1.py:39-46 | A point in [0,1000] x [0,1000] lands in [0,surf_w] x [0,surf_h]. On a 1000 x 1000 window the map is plain truncation of x and y. |
| `Viewport.DrawInside` | f1.py:43-46 | With any centred letterbox, a point of the logical plane is drawn inside the window. |
| `Viewport.ScalePointMonotone` | f1.py:39-46 | Drawing keeps order on each axis. |
| `Decimal.Digits` | f1.py:67 | The decimal rendering of n is a non-empty digit string with no leading zero whose value is n. |
| `Decimal.DigitsFit` | f1.py:67 | A number below 10^k takes at most k digits. |
| `Decimal.Padded` | f1.py:67 | Zero padding to a width keeps the value and gives at least that width. It adds nothing when the number is already wider. |
| `Decimal.PaddedWidth` | f1.py:67 | A number below 10^w padded to w characters takes exactly w characters. |
| `TimerFormat.FloorMod` | f1.py:64-65 | Python's float `%` with a positive divisor lies in [0, m) and differs from t by a whole multiple of m. |
| `TimerFormat.Split` | f1.py:62-66 | For t >= 0: minutes and seconds lie in 0..59 and milliseconds in 0..999. hours*3600 + minutes*60 + seconds == floor(t). The milliseconds are the floor of the fractional part times 1000. |
| `TimerFormat.SplitWhole` | f1.py:63-65 | Hours, minutes and seconds are floor(t) div 3600, (floor(t) mod 3600) div 60 and floor(t) mod 60. |
| `TimerFormat.FormatTimeLayout` | f1.py:67 | When hours < 100 the text is exactly 12 characters: ':' at 2 and 5, '.' at 8, and digits everywhere else. |
| `TimerFormat.ParseLayout` | f1.py:67 | A layout with 2-digit minute and second fields and a 3-digit millisecond field reads back to its field values. |
| `TimerFormat.ParseFormatTime` | f1.py:62-67 | Reading the timer text back gives exactly the split fields, for any number of hours. |

## Left out

- The pygame window, event loop, resize handling, drawing, fonts, the lap label, `flip` and `clock.tick` (f1.py:69-148 apart from the bookkeeping at 108-115): user-interface plumbing with no logic to state.
- Reading and writing the coordinate, lap-time and output files, and Python's `float()`/`int()` literal parsing (f1.py:12-29, norm.py:3-5, norm.py:26-28): I/O over a foreign parser.
- The per-frame distance and the float step towards the next vertex (f1.py:103-106, 117-118): they use square roots over floats. Whether a frame arrives is an input to `RaceState.Step`, and so is the position after a non-arriving frame. A frame that does not arrive with `distance == 0` (for example, every vertex equal, so `speed` is 0) raises `ZeroDivisionError` at f1.py:117. `RaceState.Step` does not model that exit.
- The start/finish tick (f1.py:48-60): drawing geometry with `math.hypot`.
- The speed formula and its recomputation each lap (f1.py:83, 114): float division by the lap time. The script never checks that lap times are positive. A zero lap time raises `ZeroDivisionError` at f1.py:83 (at startup) or at f1.py:114 (on a lap change). `RaceState.Start` and `RaceState.Step` do not model that exit.
- The lap timer reset via `time.perf_counter` (f1.py:91, 101, 115): wall-clock time. `TimerFormat` takes the elapsed seconds as an argument.
- `PathLength.CalculatePathLength`: the edge length is an abstract function rather than the Euclidean distance. So the square-track example, whose length is 40, is not stated.
- Exact IEEE-754 rounding: every value is exact. In `Normalize.Rescale` and `TimerFormat.Split`, Python's float result may differ from the exact floor at boundary values.
- `Normalize.NormalizeIdempotent`: idempotence is proved in exact arithmetic only. On normalised data every coordinate is a value where the exact quotient is a whole number, exactly where float rounding can land just below it, so the script may not be idempotent.
