# Torn live-location travel map (great circle), modelled in Dafny

The userscript replaces the plane animation on Torn's travel page with a
world map. Once a second it redraws a canvas. It draws:

- a red dot for each of its twelve travel locations;
- a great-circle path of 101 samples from the departure to the destination;
- a plane indicator at the sample matching the flight's progress, rotated
  towards the next sample.

It reads the progress from the `width` style of the progress bar's fill. It
reads the two countries from the file names of the two circular flag
images. The image order is swapped when the fill head has a `left` style.

This project models that core and proves properties of it:

- `projection.dfy` (module `Projection`): the equirectangular projection
  between map percentages and latitude/longitude, and degree/radian
  conversion.
- `js_builtins.dfy` (module `JsBuiltins`): the JavaScript built-ins the
  frame depends on, with their exact index rules. These are `slice`
  (negative indices, clamping), `split`, `at(-1)` and `reverse`.
- `great_circle.dfy` (module `GreatCircle`): the loop that builds the path,
  one sample per index `0..numPoints` at fraction `i / numPoints`. The
  spherical interpolation of a sample is a function the caller supplies.
- `frame.dfy` (module `Frame`): the per-frame computations as values.
  - the location table and its lookup;
  - percentage-to-pixel scaling;
  - the path index chosen from the progress;
  - the plane's pose, where the heading is computed only when a next
    sample exists;
  - the country name cut out of a flag URL;
  - the ordering of the flags;
  - the drawing operations a frame issues.
- `render.dfy` (module `Render`): the frame itself, step by step.
  - A `Canvas` object keeps its pixel size and the operations drawn since it
    was last cleared.
  - A `PlaneIndicator` object keeps the indicator's `left`, `top` and
    rotation.
  - `RenderFrame` sizes the canvas, clears it, draws the dots, reads the
    page, looks the countries up, draws the path and moves the plane. It
    is proved to do exactly what the value `FrameSpec` describes.
  - Lemmas about `FrameSpec` state what a frame draws and how it ends.

All arithmetic is over `real`. The JavaScript doubles are not modelled, so
the projection and its inverse are exact inverses.

A frame ends in one of five ways (`Render.Outcome`):

- `MissingFlag`: fewer than two flag images; the source throws a TypeError.
- `UnknownDestination`: the destination is not in the table; the source
  warns and returns.
- `UnknownDeparture`: the destination is known but the departure is not; the
  source warns and returns.
- `PlaneOffPath`: the progress is not a finite number, or its index names no
  sample; the source throws a TypeError on `planeLatLon.lat`.
- `Placed(pose)`: the plane indicator moves to `pose`.

### Where the code decides

These behaviours follow from the code as written:

- Torn's map point (51, 47) is at latitude 90 − 0.47·180 = 5.4 and
  longitude 3.6 (`Projection.TornCoordinates`).
- The progress is not clamped. A progress below 0, or at or above 101
  percent, makes the path index name no sample, and the frame stops with
  `PlaneOffPath`. Progress in [100, 101) still places the plane on the last
  sample (`Render.PlacedExactlyOnPath`).
- At the last sample the heading is 0. It is not held over from an earlier
  frame or sample (`Frame.PoseAtLastIgnoresHeading`).

## Model

| member | source | states |
|---|---|---|
| Projection.MapToLatLon | live-location-travel-map-great-cricle/script.js:15-22 | x in 0..100 gives longitude in -180..180 and y in 0..100 gives latitude in -90..90; x = 0 / 100 give -180 / 180 and y = 0 / 100 give 90 / -90 |
| Projection.LatLonToMap | live-location-travel-map-great-cricle/script.js:25-29 | longitude -180..180 and latitude -90..90 land on the image (0..100); the four edges map to 0 or 100 |
| Projection.ToRad | live-location-travel-map-great-cricle/script.js:32 | 180 degrees is PI and 0 is 0 |
| Projection.ToDeg | live-location-travel-map-great-cricle/script.js:33 | PI is 180 degrees and 0 is 0 |
| Projection.MapRoundTrip | live-location-travel-map-great-cricle/script.js:15-29 | converting a map point to latitude/longitude and back gives exactly the same point, on or off the image |
| Projection.GeoRoundTrip | live-location-travel-map-great-cricle/script.js:15-29 | converting latitude/longitude to the map and back gives the same position |
| Projection.MapToLatLonInjective | live-location-travel-map-great-cricle/script.js:15-22 | two map points with the same geographic position are the same point |
| Projection.MapToLatLonAffine | live-location-travel-map-great-cricle/script.js:19-20 | the projection carries every interpolation or extrapolation between two map points to the same one between their images (no clamping) |
| Projection.LatLonToMapAffine | live-location-travel-map-great-cricle/script.js:26-27 | the same for the inverse |
| Projection.TornCoordinates | live-location-travel-map-great-cricle/script.js:19-20 | Torn's map point (51, 47) is latitude 5.4, longitude 3.6 |
| Projection.DegreesRadiansRoundTrip | live-location-travel-map-great-cricle/script.js:32-33 | degrees to radians and back, and radians to degrees and back, are the identity |
| JsBuiltins.SliceIndex | live-location-travel-map-great-cricle/script.js:118-119 | a relative index resolves to a position within 0..len: a non-negative index within range is kept, a negative one counts from the end, one past the end gives len and one before the start gives 0 |
| JsBuiltins.Slice | live-location-travel-map-great-cricle/script.js:118-119 | `slice` takes the elements between the resolved positions: the ordinary subsequence for in-range bounds, up to `len + end` for a negative end, to the end for an end past it, and empty whenever the resolved end is not past the resolved start (including a start at or past the end and a negative end that resolves before the start); never longer than the input and drawn from its elements |
| JsBuiltins.Split | live-location-travel-map-great-cricle/script.js:118-119 | `split` returns one more part than there are separators, and no part contains the separator |
| JsBuiltins.JoinSplit | live-location-travel-map-great-cricle/script.js:118-119 | joining the parts of a split with the separator gives back the original string |
| JsBuiltins.SplitWithoutSeparator | live-location-travel-map-great-cricle/script.js:118-119 | a string without the separator splits into itself alone |
| JsBuiltins.LastPart | live-location-travel-map-great-cricle/script.js:118 | `split(sep).at(-1)` contains no separator, and is the whole string when it has no separator; what follows the last separator is stated by `JsBuiltins.LastPartAfterSeparator` |
| JsBuiltins.LastPartAfterSeparator | live-location-travel-map-great-cricle/script.js:118-119 | `split(sep).at(-1)` is whatever follows the last separator |
| JsBuiltins.Reversed | live-location-travel-map-great-cricle/script.js:115 | `reverse` puts element k at position len-1-k, keeping the length and the elements with their multiplicities |
| JsBuiltins.ReversedTwice | live-location-travel-map-great-cricle/script.js:114-116 | reversing twice restores the order |
| JsBuiltins.ReversedPair | live-location-travel-map-great-cricle/script.js:115 | reversing two flags swaps them |
| GreatCircle.FractionOf | live-location-travel-map-great-cricle/script.js:45 | the fraction `i / numPoints` is NaN exactly when numPoints is 0, else it lies in 0..1, is 0 at the first index and 1 at the last |
| GreatCircle.FractionIncreasing | live-location-travel-map-great-cricle/script.js:44-45 | later indices get strictly larger fractions |
| GreatCircle.GreatCirclePath | live-location-travel-map-great-cricle/script.js:36-67 | the loop returns `numPoints + 1` samples (none for a negative count), sample k taken at fraction k / numPoints between the endpoints in radians and converted back to degrees; the result equals the value `Path` |
| GreatCircle.PathEnds | live-location-travel-map-great-cricle/script.js:44-66 | with at least one step the path has numPoints + 1 samples, the first at fraction 0 and the last at fraction 1 |
| GreatCircle.PathWithoutSteps | live-location-travel-map-great-cricle/script.js:44-66 | with 0 steps the path is a single sample at NaN |
| GreatCircle.PathOrdered | live-location-travel-map-great-cricle/script.js:44-64 | samples at earlier indices are taken at strictly smaller fractions |
| Frame.Lookup | live-location-travel-map-great-cricle/script.js:121-122 | the lookup finds a location exactly when some entry has the name, and what it finds is the point of an entry with that name |
| Frame.LocationsOnImage | live-location-travel-map-great-cricle/script.js:77-90 | every location of the table lies on the map image |
| Frame.LookupFirst | live-location-travel-map-great-cricle/script.js:121-122 | the lookup finds the first entry with the name |
| Frame.LookupTorn | live-location-travel-map-great-cricle/script.js:78 | "torn" is found at (51, 47) |
| Frame.LookupJapan | live-location-travel-map-great-cricle/script.js:86 | "japan" is found at (16, 42) |
| Frame.LookupAtlantis | live-location-travel-map-great-cricle/script.js:121-124 | a name outside the table ("atlantis") is not found |
| Frame.Scale | live-location-travel-map-great-cricle/script.js:95-96 | `extent / 100 * pct` maps 0 to 0 and 100 to the extent, and stays on the canvas for percentages in 0..100 |
| Frame.ScaleMonotone | live-location-travel-map-great-cricle/script.js:148-149 | scaling keeps the order of positions |
| Frame.GeoPixelOfLocation | live-location-travel-map-great-cricle/script.js:135-149 | a location converted to the globe and back is drawn exactly where its dot is |
| Frame.PathIndex | live-location-travel-map-great-cricle/script.js:161 | the index is the floor of `(pct / 100) * (len - 1)`: at most that product and more than the product minus 1; its range, monotonicity and the halfway value are stated by the lemmas below |
| Frame.PathIndexInRange | live-location-travel-map-great-cricle/script.js:161 | for progress 0..100 the index is within 0..len-1 |
| Frame.PathIndexMonotone | live-location-travel-map-great-cricle/script.js:161 | more progress never gives a smaller index |
| Frame.PathIndexLastOnlyAtArrival | live-location-travel-map-great-cricle/script.js:161-170 | on a path of two or more samples and progress 0..100, the index is the last one exactly at 100 percent |
| Frame.PathIndexHalfway | live-location-travel-map-great-cricle/script.js:139-161 | at 50 percent on the 101-sample path the index is 50 |
| Frame.PoseAt | live-location-travel-map-great-cricle/script.js:162-186 | the indicator's corner is 16 pixels up and left of the sample's pixel, and at the last sample the rotation is 0; the heading from the next sample is stated by `Frame.PoseAtSample` |
| Frame.PoseAtSample | live-location-travel-map-great-cricle/script.js:162-186 | the indicator's corner is 16 pixels up and left of its sample's pixel, and with a next sample its rotation is the arctangent of the pixel step to it, in degrees |
| Frame.PoseAtLastIgnoresHeading | live-location-travel-map-great-cricle/script.js:169-180 | at the last sample the rotation is 0, whatever the arctangent |
| Frame.PoseAtLocal | live-location-travel-map-great-cricle/script.js:162-177 | the pose depends only on the sample and its successor |
| Frame.CountryName | live-location-travel-map-great-cricle/script.js:118-119 | the name has no `/`; it is empty when the last `/` part has fewer than 8 characters, else it is that part without its first 3 and last 4 characters |
| Frame.CountryNameOfFile | live-location-travel-map-great-cricle/script.js:118-119 | under any directory, a file name of 8 or more characters gives the name without its first 3 and last 4 characters |
| Frame.FlagFileOfCountry | live-location-travel-map-great-cricle/script.js:118-119 | `cs_<country>.png` is a flag file of the country |
| Frame.CountryNameOfFlagFile | live-location-travel-map-great-cricle/script.js:118-119 | the URL of a country's flag file, in any directory, gives back the country |
| Frame.CountryNameOfShortFile | live-location-travel-map-great-cricle/script.js:118-119 | a file name of fewer than 8 characters gives the empty name |
| Frame.StripLast | live-location-travel-map-great-cricle/script.js:107 | dropping the last character: the result followed by that character is the text, and empty text stays empty |
| Frame.StripPercent | live-location-travel-map-great-cricle/script.js:106-107 | the `%` after the digits is removed |
| Frame.OrderedFlags | live-location-travel-map-great-cricle/script.js:114-116 | the flags keep their number; without a `left` style they keep their order, with one they are reversed |
| Frame.OrderedPair | live-location-travel-map-great-cricle/script.js:114-119 | with two flags a `left` style swaps destination and departure |
| Frame.DotOpsAt | live-location-travel-map-great-cricle/script.js:94-102 | one dot per table entry, in table order, at the entry's pixel, radius 5 |
| Frame.DotsOnCanvas | live-location-travel-map-great-cricle/script.js:94-102 | every location's dot lies on the canvas |
| Frame.SegmentsAt | live-location-travel-map-great-cricle/script.js:146-156 | one polyline step per sample, in path order: a move for the first, a line for the others |
| Frame.PathOpsShape | live-location-travel-map-great-cricle/script.js:144-158 | the path is begun, moved to the first sample's pixel, lined to each further sample's pixel in order, and stroked |
| Render.CanvasDimension | live-location-travel-map-great-cricle/script.js:70-73 | the canvas size is the layout size truncated to an integer: at most the layout size, and, below 2^32, less than one below it |
| Render.Countries | live-location-travel-map-great-cricle/script.js:111-119 | a destination and departure are read exactly when there are at least two flags |
| Render.Canvas.constructor | live-location-travel-map-great-cricle/script.js:200-201 | a new canvas is 300 by 150 and empty |
| Render.Canvas.DrawDots | live-location-travel-map-great-cricle/script.js:94-102 | the `forEach` appends exactly the table's dots to the canvas |
| Render.Canvas.DrawPath | live-location-travel-map-great-cricle/script.js:144-158 | the `forEach` appends exactly the begun, drawn and stroked polyline |
| Render.PlaneIndicator.constructor | live-location-travel-map-great-cricle/script.js:205-210 | the indicator starts at 0, 0, unrotated |
| Render.PlanePose | live-location-travel-map-great-cricle/script.js:161-180 | the index, the bounds guard and the heading guard compute the value `PlaneOutcome` |
| Render.DrawRoute | live-location-travel-map-great-cricle/script.js:104-132 | reading the page and looking up the countries ends, draws and moves the plane as the value `RouteSpec` says, and leaves the plane untouched on every outcome but `Placed` |
| Render.DrawKnownRoute | live-location-travel-map-great-cricle/script.js:134-188 | once both locations are known, the path and plane match `KnownRouteSpec` |
| Render.RenderFrame | live-location-travel-map-great-cricle/script.js:69-189 | the canvas size, what is drawn and the outcome are those of `FrameSpec`; the plane indicator moves to the pose on a `Placed` frame and is unchanged otherwise |
| Render.FrameStartsWithDots | live-location-travel-map-great-cricle/script.js:69-102 | every frame starts with the clear and one dot per location, however it ends |
| Render.UnknownLocationOrder | live-location-travel-map-great-cricle/script.js:121-132 | a frame stops on an unknown destination exactly when the destination is unknown, on an unknown departure exactly when the destination is known and the departure is not, and goes on to the plane exactly when both are known |
| Render.UnknownLocationDrawsOnlyDots | live-location-travel-map-great-cricle/script.js:92-132 | a frame that stops on a missing flag or an unknown location draws the clear and the dots and nothing else |
| Render.StoppedRouteDrawsNothing | live-location-travel-map-great-cricle/script.js:121-132 | a route that stops before the path draws nothing |
| Render.KnownRouteDrawsPath | live-location-travel-map-great-cricle/script.js:134-158 | with both locations known, the 101-sample path from departure to destination follows the dots, and is all that follows them |
| Render.PlacedExactlyOnPath | live-location-travel-map-great-cricle/script.js:161-162 | on a known route the plane is placed exactly when the progress is a number in [0, 101) |
| Render.PlacedPose | live-location-travel-map-great-cricle/script.js:161-180 | for progress 0..100 the plane is at sample `PathIndex` of the path with that sample's pose, and at 100 its rotation is 0 |
| Render.CountriesOfFlagFiles | live-location-travel-map-great-cricle/script.js:111-119 | two flag URLs, destination first and no `left` style, read as that destination and departure |
| Render.HalfwayAlongRoute | live-location-travel-map-great-cricle/script.js:161-166 | halfway along a known route the plane is at sample 50 |
| Render.HalfwayTornToJapan | live-location-travel-map-great-cricle/script.js:69-189 | with the flags of Japan then Torn, in any directory, and a 50% fill, the plane is at sample 50 of the path from Torn to Japan |
| Render.ReversedFlagsSameFrame | live-location-travel-map-great-cricle/script.js:114-119 | flags in the other order with a `left` style give the same frame |

## Left out

- The spherical interpolation inside `greatCirclePath` (`asin`, `sin`,
  `cos`, `sqrt`, `atan2` on doubles) is floating-point numerics. Each sample
  is a caller-supplied `Slerp` of the two endpoints in radians and the
  fraction. Nothing is claimed about endpoint fidelity or great-circle
  optimality.
- Identical endpoints make `sin(d)` zero, and the source divides by it,
  producing NaN samples. The source does not handle this case, and the
  model inherits whatever the supplied `Slerp` returns.
- `Math.atan2` in the heading is a caller-supplied function. Only the guard
  around it and the conversion to degrees are modelled.
- `Number(...)` on the stripped `width` style is a caller-supplied
  `toNumber`. It returns `None` for NaN and for infinities; the source then
  fails with a TypeError on the plane's sample. Only the removal of the
  last character is modelled.
- JavaScript double rounding is not modelled; all arithmetic is exact over
  `real`.
- DOM access is replaced by a `Page` snapshot of the three values a frame
  reads. These are `querySelector`, `querySelectorAll` and
  `getBoundingClientRect`. A missing progress bar, fill, flag wrapper or
  fill head throws a TypeError in the source; these cases are not modelled.
  A missing plane indicator is modelled (`PlaneIndicator?`).
- Canvas styling is left out: `fillStyle`, `strokeStyle`, `lineWidth`,
  `closePath` and the arc's angles. Each dot's
  `beginPath`/`arc`/`closePath`/`fill` becomes one `Dot` operation.
- `console.warn` on an unknown location is left out. The outcome names the
  missing country.
- The plane's style strings (`${x}px`, `rotate(${deg}deg)`) are modelled
  as the numbers they format.
- Scheduling (`setInterval`, `requestAnimationFrame`) and page set-up
  (`create_live_location_map`, `initalize`, `attempt_initialization`) are
  browser plumbing and are left out; `RenderFrame` is one timer tick.
- Frame.Lookup: `locations[name]` in the source also finds properties
  every JavaScript object inherits, such as `constructor`. The model finds
  only the twelve table entries.
- Render.CanvasDimension: models the conversion to an unsigned 32-bit size
  for non-negative layout sizes only, which is what layout always reports.
  A browser stores the default size (300 or 150) for a value above
  2^31 - 1; the model keeps the value modulo 2^32 there. Layout never
  reports sizes that large.
- Frame.Lookup and Frame.DotOps: on a table that repeats a name, the lookup
  finds the first entry and a dot is drawn for each entry. A JavaScript
  object literal keeps the last value of a repeated key and lists it once.
  The script's own table has twelve distinct names, so no frame differs.
- GreatCircle.GreatCirclePath: the default `numPoints = 50` of
  `greatCirclePath` is not modelled; the frame always passes 100.
