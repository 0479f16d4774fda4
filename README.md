# windy.js simulation core in Dafny

windy.js animates wind over a map. It takes a set of GRIB2 forecast records. It splits them into u and v component series and blends the two frames that surround the current animation step. It lays the samples out as a grid, which may wrap around the globe. For every second screen pixel it stores a sampler that interpolates the grid bilinearly at the pixel's inverted map position and applies the projection's distortion. A population of particles is then advected through that field, one tick per display frame. Each particle is respawned when it gets too old, moved or bucketed by wind speed, and aged. A step counter runs through 1440 steps and signals time-change listeners. The counter can be paused, played, stopped and restarted.

The model follows the program's pipeline, one module per stage:

- `JsNumbers`: Math.floor, Math.ceil and Math.round; the truncating `%` and `~~`; floorMod; Math.sqrt kept abstract as `Norm`.
- `Settings`: the tuning constants.
- `Forecast`: records and createBuilder's split into series.
- `TimeBlend`: createWindBuilder's `_progress` and `_data`, with its memo as a class.
- `Grid`: buildGrid, interpolate and bilinearInterpolateVector.
- `Projection`: distort, with invert and distortion taken as inputs.
- `Random`: Math.random as a stream of draws with a counter.
- `ScreenField`: buildBounds, the column table interpolateField fills, and a `wind_obj` memo as a class. It also holds createField's field, release and randomize.
- `Engine`: indexFor, one particle's step, the whole backwards sweep of evolve, and resetParticles' population.
- `Driver`: the Windy object's flags and listeners, and the running animation (resetParticles, evolve, frame), both as classes.

The loops of the source are methods with loop invariants. Each is proved against a function that states its result:

- createBuilder's forEach against `Select`;
- buildGrid against `GridSpec` and `RowShape`;
- interpolateColumn and interpolateField against `ColumnSpec` and `FieldSpec`;
- resetParticles against `Population`;
- evolve's loop against `Sweep`.

The properties the program relies on are proved as lemmas about those functions.

Quirks of the code are kept as written:

- evolve's loop stops at `i > 0`, so particle 0 is never stepped.
- An escaped particle ends its tick at age MAX_PARTICLE_AGE + 1.
- randomize never retries.
- buildBounds returns `xMax: width`.
- The bucket index uses the magnitude from before distortion.
- The display time binds the `- 1` to the frame fraction. The code computes `start_time + (t/1440 - 1) * duration`. Listeners therefore see times from start_date − duration up to start_date, not the frame fraction mapped onto [start_date, end_date]. The model follows the code (`Driver.DisplayTime`).

## Model

| member | source | states |
|---|---|---|
| JsNumbers.Floor | windy.js:132-133 | Math.floor: the greatest integer not above x |
| JsNumbers.Ceil | windy.js:272-273 | Math.ceil: the least integer not below x |
| JsNumbers.Round | windy.js:236-237 | Math.round: within half a unit of x, halves upward, integers unchanged |
| JsNumbers.Trunc | windy.js:62 | `~~p` truncates toward zero: floor for non-negative, ceil for negative values |
| JsNumbers.Min | windy.js:393 | Math.min: one of the two arguments, not above either |
| JsNumbers.Max | windy.js:271 | Math.max: one of the two arguments, not below either |
| JsNumbers.MinInt | windy.js:272-273 | Math.min on integers: one of the two, not above either |
| JsNumbers.MaxInt | windy.js:271 | Math.max on integers: one of the two, not below either |
| JsNumbers.JsRemainder | windy.js:62 | JavaScript's `%`: whenever the quotient is not negative it equals floorMod |
| JsNumbers.FloorMod | windy.js:171-173 | floorMod(a, n) lies in [0, n) for every a, negative a included, when n > 0 |
| JsNumbers.FloorModBounds | windy.js:171-173 | with q = floor(a / n) and n > 0, a - n*q lies in [0, n) |
| JsNumbers.FloorModPeriodic | windy.js:171-173 | floorMod(a + 360k, 360) == floorMod(a, 360) for every whole turn k |
| JsNumbers.FloorModIdentity | windy.js:171-173 | floorMod leaves a value already in [0, 360) unchanged |
| JsNumbers.RemainderOf1440 | windy.js:62 | for t >= 0, JavaScript's `t % 1440` equals the floored modulo and lies in [0, 1440) |
| JsNumbers.RemainderOf1440Periodic | windy.js:62 | `(t + 1440) % 1440 == t % 1440` for t >= 0 |
| Forecast.CreateBuilder | windy.js:87-97 | uComp is exactly the input records tagged "2,2" and vComp those tagged "2,3", each in input order; other records are dropped |
| Forecast.SelectMembership | windy.js:90-97 | a record is in a selected series if and only if it occurs in the input with that tag |
| Forecast.SelectAppend | windy.js:90-97 | selection keeps input order: it distributes over concatenation of the input |
| Forecast.SelectTagged | windy.js:91-93 | every record put in a series carries that series' tag |
| Forecast.SplitIsPartition | windy.js:90-97 | the u and v series together take each input record at most once (multiset inclusion) |
| TimeBlend.MakeSeries | windy.js:46-79 | the split is usable exactly when there is at least one u frame, at least as many v frames, and every frame that is read holds nx*ny samples; the series keeps both lists as given; a split with no u frame or fewer v frames is rejected |
| TimeBlend.ProgressAt | windy.js:59-73 | for t >= 0 and n >= 1 frames: 0 <= p0 <= q <= n-1, q is p0+1 unless p0 is the last frame, p1 in [0, 1), p2 == 1 - p1, and p0 is the last frame only for a single frame |
| TimeBlend.ProgressOfFraction | windy.js:61-63 | the same for the fraction (t % steps)/steps in [0, 1) |
| TimeBlend.PositionOfFraction | windy.js:61 | `~~(frac * (n-1))` for frac in [0, 1) is a frame before the last one, or 0 for a single frame, and p1 = p - p0 lies in [0, 1) |
| TimeBlend.LerpOfEqual | windy.js:76-77 | blending a value with itself gives that value |
| TimeBlend.LerpAtZero | windy.js:76-77 | with weight p1 = 0 the blend is the first frame's value |
| TimeBlend.LerpBetween | windy.js:76-77 | the blend lies between the two frame values |
| TimeBlend.BlendAt | windy.js:74-79 | `_data(i, t)`: the frames p0 and q lie in the series, and the blended u and v each lie between the two frames' samples |
| TimeBlend.BlendAtFrameBoundary | windy.js:74-79 | when p1 = 0, `_data(i, t)` is exactly frame p0's u and v at index i |
| TimeBlend.BlendAtStart | windy.js:59-79 | at t = 0 `_data` is the first frame's sample |
| TimeBlend.BlendPeriodic | windy.js:59-79 | times 1440 steps apart blend the same frames with the same weight |
| TimeBlend.BlendOfConstantFrames | windy.js:74-79 | if every frame holds the same (u, v) at index i, the blend is that vector at every t |
| TimeBlend.WindBuilder.constructor | windy.js:52-58 | a fresh builder has no cached time, a consistent memo and no recomputations yet |
| TimeBlend.WindBuilder.ProgressOf | windy.js:59-73 | returns the Progress of t and caches t afterwards; it recomputes (one more evaluation) exactly when t differs from the cached time |
| TimeBlend.WindBuilder.Data | windy.js:74-79 | returns the blend of frames p0 and q at index i and time t, keeping the memo consistent; the Progress is recomputed exactly when t is not the cached time |
| Projection.Distort | windy.js:193-205 | a missing wind stays missing (NULL_WIND_VECTOR); a present one stays present and keeps its undistorted magnitude in entry [2] |
| Projection.DistortIdentity | windy.js:197-204 | under the identity tensor distort only scales u and v by the velocity scale |
| Projection.DistortCalm | windy.js:197-204 | a calm wind (u = v = 0) stays calm under any tensor |
| Grid.FlatIndexInRange | windy.js:118 | the flat index j*nx + i of a grid point is below nx*ny |
| Grid.IsContinuous | windy.js:114 | a grid spanning 360 degrees has at least one column and a positive spacing |
| Grid.BuildGrid | windy.js:113-125 | the grid is GridSpec: ny rows, each RowSpec with nx samplers, or nx+1 when floor(nx*dx) >= 360 and then the last is a copy of row[0]. Entry (j, i) samples flat index j*nx + i, and every sampler indexes a sample every frame holds |
| Grid.BuildRow | windy.js:116-123 | one row is RowSpec: sampler c indexes j*nx + c, plus the wrap-around copy of the first on a continuous grid |
| Grid.Cell | windy.js:135-139 | `grid[r][c]` is present exactly when both indices are in range (otherwise undefined) |
| Grid.Weights | windy.js:34-36 | the four bilinear weights sum to 1, and for offsets in [0, 1] none is negative |
| Grid.Bilinear | windy.js:33-43 | u and v are the weighted blends of the corners' u and v, and the magnitude is the norm of those blended components (not a blend of the corner magnitudes), so it is non-negative |
| Grid.BilinearAtCorner | windy.js:33-43 | at offsets (0, 0) the result is g00 with its magnitude |
| Grid.BilinearOfEqualCorners | windy.js:33-43 | four equal corners interpolate to that corner at any offsets |
| Grid.ColumnIndex | windy.js:129 | the column index times the spacing is floorMod(lon - lo1, 360), so for a positive spacing it lies in [0, 360/dx) |
| Grid.RowIndex | windy.js:130 | the row index times the spacing is la1 - lat: rows count southward from la1 |
| Grid.InterpolateAt | windy.js:132-148 | the result, when present, has a non-negative magnitude |
| Grid.Interpolate | windy.js:127-149 | the value of `interpolate`, when present, has a non-negative magnitude |
| Grid.InterpolateNullIff | windy.js:127-149 | interpolate is null if and only if the spacing is zero or one of the cells (fj,fi), (fj,ci), (cj,fi), (cj,ci) is missing; there is no partial result |
| Grid.InterpolateWrapsLongitude | windy.js:129 | longitudes a whole number of turns apart interpolate to the same value |
| Grid.InterpolateAtGridPoint | windy.js:132-144 | exactly at a grid point whose neighbours exist, the result is that point's sample |
| Random.Rng.Next | windy.js:254-255 | one Math.random call returns the next draw of the stream and advances the counter by one |
| ScreenField.BuildBounds | windy.js:267-275 | x is upperLeft.x rounded; y = max(floor(upperLeft.y), 0): 0 for a negative upperLeft.y, floor otherwise; yMax <= height-1, being ceil(lowerRight.y) unless that passes height-1, in which case it is height-1; xMax and width are both the canvas width |
| ScreenField.BoundsRowsOnCanvas | windy.js:271-273 | every row the column fill visits lies on the canvas |
| ScreenField.PixelValue | windy.js:326-334 | a pixel's wind, when present, has a non-negative magnitude |
| ScreenField.PixelValueOfGrid | windy.js:330-331 | a pixel has a wind exactly where the grid interpolation does, with the same (undistorted) magnitude |
| ScreenField.WindPoint.constructor | windy.js:320-325 | a fresh sampler for a pixel has no memoized time |
| ScreenField.WindPoint.Fn | windy.js:326-334 | returns the pixel's wind at t, memoizes t, and recomputes exactly when t differs from the memoized time |
| ScreenField.Anchor | windy.js:338-355 | the start of the two-pixel step covering k is k or k-1 and has the parity of the start |
| ScreenField.AnchorOfStep | windy.js:344-348 | a step start and the pixel after it share that start |
| ScreenField.ColumnBeforeStep | windy.js:338-346 | one round of the row loop stores the sampler of row y at rows y and y+1 exactly when invert gives a finite longitude, and changes nothing else |
| ScreenField.ColumnBeforeEnd | windy.js:338 | once y passes yMax the partial column is the whole column |
| ScreenField.InterpolateColumn | windy.js:336-347 | the column holds, for y = b.y, b.y+2, ... <= yMax with a finite inverse longitude, the sampler of (x, y) at rows y and y+1, and nothing else |
| ScreenField.FieldBeforeStep | windy.js:348-355 | one round of the column loop stores column x at x and x+1 and changes nothing else |
| ScreenField.FieldBeforeEnd | windy.js:353 | once x reaches the bounds' width the partial table is the whole table |
| ScreenField.InterpolateField | windy.js:315-362 | the table holds the column of x at columns x and x+1 for x = b.x, b.x+2, ... < width, and nothing else |
| ScreenField.ColumnSpec | windy.js:336-347 | every stored row of column x lies in [y, yMax + 1] and holds a sampler made at x; every row in [y, yMax] whose anchor row inverts to a finite longitude is stored |
| ScreenField.FieldSpec | windy.js:348-355 | the stored columns lie in [x, width], and every column in [x, width) is stored |
| ScreenField.Lookup | windy.js:236-238 | on an empty table every lookup is nothing |
| ScreenField.FieldAt | windy.js:235-242 | field(x, y, t) is NULL_WIND_VECTOR when no sampler is stored at (round x, round y), and a wind it returns has a non-negative magnitude |
| ScreenField.TableEntry | windy.js:336-355 | pixel (cx, cy) holds a sampler exactly when its column anchor is below width, its row anchor is within [y, yMax] and inverts to a finite longitude; the sampler is the anchor pixel's |
| ScreenField.LookupOnTable | windy.js:236-238 | on the built table, the rounded pixel reads the sampler of its anchors, or nothing outside the fill |
| ScreenField.FieldOnTable | windy.js:235-242 | on the built table, field is the anchor pixel's wind; NULL_WIND_VECTOR when no sampler is stored or when that pixel's interpolation is null |
| ScreenField.LookupSharedByBlock | windy.js:344-348 | all four pixels of a 2x2 block at an anchor read the same sampler |
| ScreenField.FieldOfReleased | windy.js:246-248 | after release every query is NULL_WIND_VECTOR |
| ScreenField.AxisDraw | windy.js:254-255 | a coordinate drawn by randomize lies in [origin, origin + extent - 1], or is the origin for an empty extent |
| ScreenField.RandomPoint | windy.js:254-255 | randomize's x lies in [b.x, b.x + width - 1] and y in [b.y, b.y + height - 1], each the origin for an empty extent |
| ScreenField.Field.constructor | windy.js:229 | createField keeps the table and bounds it was given |
| ScreenField.Field.Release | windy.js:246-248 | release empties the table |
| ScreenField.Field.Randomize | windy.js:250-260 | one attempt only: exactly two draws, x from the first and y from the second, at RandomPoint of those draws |
| Engine.IndexFor | windy.js:392-394 | for m >= 0 the bucket index is in [0, 9], and every m >= MAX_WIND_INTENSITY maps to the last bucket, 9 |
| Engine.IndexForMonotone | windy.js:392-394 | indexFor is non-decreasing in m |
| Engine.Respawn | windy.js:440-442 | a respawned particle has age 0, a position inside the bounds and its old xt/yt |
| Engine.Advance | windy.js:443-467 | a visible step names a valid bucket |
| Engine.StepAt | windy.js:439-467 | one loop round takes two draws exactly when the particle has expired, and a visible fate names one of the ten buckets |
| Engine.AdvanceCases | windy.js:443-467 | escape happens exactly when the field at (x, y) is null and leaves age MAX_PARTICLE_AGE+1. A visible step keeps x/y, sets xt/yt, takes the bucket of the undistorted magnitude and has a non-null target. A hidden step moves x/y to the target, which is null. Otherwise age grows by one |
| Engine.StepLifecycle | windy.js:439-467 | an expired particle is respawned with two draws at age 0 before it advances; any other advances as it is, with no draw |
| Engine.StepAgeBounds | windy.js:440-467 | an age in [0, MAX+1] becomes one in [1, MAX+1] after a step |
| Engine.Push | windy.js:458 | pushing keeps the ten buckets |
| Engine.PushMembership | windy.js:458 | after a push, index i is in bucket k exactly when it was there already or its step was visible with bucket k |
| Engine.StageStep | windy.js:438-467 | the loop body takes two draws exactly for expired particles and keeps ages in range |
| Engine.Sweep | windy.js:438 | the sweep from index i down keeps the number of particles and the ten buckets, and never touches index 0 or an index above i |
| Engine.After | windy.js:439-467 | one loop round keeps the number of particles and the ten buckets |
| Engine.SweepUnfold | windy.js:438 | the sweep from i is one round at i followed by the sweep from i-1 |
| Engine.SweepDraws | windy.js:440-441 | the sweep takes two draws per expired particle among indices 1..i |
| Engine.SweepParticles | windy.js:438-467 | each index j in 1..i becomes its own step, taken at the draw counter the expired particles above it leave |
| Engine.SweepBuckets | windy.js:438-468 | after the sweep, e is in bucket k exactly when it was already or e is in 1..i and its step was visible with bucket k |
| Engine.SweepBucketsDistinct | windy.js:438-468 | starting from buckets above i, each bucket stays strictly decreasing and no index is in two buckets |
| Engine.EmptyBuckets | windy.js:436 | ten empty buckets |
| Engine.TickProperties | windy.js:436-468 | a whole tick from emptied buckets: index 0 untouched, every other index its own step, stepped ages in [1, MAX+1], two draws per expired particle, each index in at most one bucket |
| Engine.TickBucket | windy.js:438-468 | in a whole tick, index e is in bucket k exactly when e != 0 and its step was visible with bucket k |
| Engine.Spawn | windy.js:417 | a new particle has age floor(r*50) in [0, 49], no xt/yt, and a position inside the bounds |
| Engine.Population | windy.js:414-419 | resetParticles builds n particles |
| Engine.PopulationSnoc | windy.js:416-417 | one more loop round appends the particle spawned from the next three draws |
| Engine.PopulationRanges | windy.js:414-419 | every particle of a fresh population is young, untargeted and inside the bounds |
| Engine.ParticleCount | windy.js:405-408 | the particle count is non-negative |
| Engine.Iterations | windy.js:416 | `i < particleCount` runs ceil(particleCount) rounds: the least whole number not below the count |
| Driver.NextStep | windy.js:424-429 | from a step in [0, 1439] the unpaused step is (s + 1) mod 1440, stays in range, and is 0 exactly when the tick wraps |
| Driver.ClampStep | windy.js:430 | the clamped step lies in [0, 1439] and equals the step when that is in range |
| Driver.DisplayTime | windy.js:431 | for duration >= 0 and a step in [0, 1439] the display time lies in [start_time - duration, start_time], and is start_time - duration at step 0 |
| Driver.Notices | windy.js:432-434 | one notification per listener, in registration order, each with the same display time |
| Driver.TickOfEvolve | windy.js:436-468 | one evolve sweep on the field: index 0 untouched, every other index its own step, ages in [0, MAX+1], two draws per respawn, buckets decreasing and disjoint |
| Driver.TickOfBucket | windy.js:438-468 | index e is in bucket k after the sweep exactly when e != 0 and its step was visible with bucket k |
| Driver.Windy.constructor | windy.js:23-25 | step 0, not paused, not stopped, no listeners |
| Driver.Windy.Pause | windy.js:517-519 | sets PAUSED and changes nothing else |
| Driver.Windy.Play | windy.js:520-522 | clears PAUSED and changes nothing else |
| Driver.Windy.Stop | windy.js:548-550 | sets STOPPED and changes nothing else, so stopping twice is stopping once |
| Driver.Windy.OnTimeChange | windy.js:559-561 | appends the listener and changes nothing else |
| Driver.Windy.Start | windy.js:523-546 | leaves STOPPED false and keeps PAUSED and the listeners. It yields an animation exactly when the records form a usable series, and otherwise changes nothing else. The field's wind is the series with buildGrid's grid, its bounds are buildBounds', its table is interpolateField's. The first population is the spawns of the next 3*ceil(count) draws, and the first frame has run one evolve: the step rule, the notices, and the sweep (Evolved) |
| Driver.Windy.Prepare | windy.js:536-543 | a field exists exactly when the split is usable; its wind is the series with GridSpec, its bounds buildBounds', its table FieldSpec |
| Driver.Windy.Animate | windy.js:367-514 | the first resetParticles' population from the draws at entry, then one frame with STOPPED clear: the step rule, the notices and the sweep (Evolved) |
| Driver.Animation.constructor | windy.js:398-420 | the animation starts with ten empty buckets, duration end - start, the particle count, and a population built from the next 3*ceil(count) draws |
| Driver.Animation.ResetParticles | windy.js:414-419 | the particles are the population of ceil(particleCount) spawns from the next draws, three each; the buckets are untouched |
| Driver.Animation.SpawnParticle | windy.js:417 | three draws, the age from the first and randomize's position from the next two |
| Driver.Animation.StepParticle | windy.js:439-467 | one round of evolve's loop on a particle is StepAt: the respawn with its draws, then Advance |
| Driver.Animation.SweepRound | windy.js:439-467 | the loop body at index i: the round `After`, touching no other particle and leaving particle i's age in [1, MAX+1] |
| Driver.Animation.SweepParticles | windy.js:436-468 | the buckets are emptied, then the new particles, buckets and draw counter are the whole sweep of the old population (TickOf) |
| Driver.Animation.AdvanceTime | windy.js:423-435 | unpaused: the step advances to NextStep, and a wrap resets the particles. One notice per listener with the display time. Paused: nothing changes and no listener is scheduled |
| Driver.Animation.Evolve | windy.js:422-469 | the step rule and notices of AdvanceTime. The new particles, buckets and draw counter are the sweep (TickOf) at the new step of the population after any reset, starting at the draw counter after that reset (Evolved) |
| Driver.Animation.Frame | windy.js:499-514 | once STOPPED nothing at all changes; otherwise one evolve runs, with its step rule, its notices and its sweep (Evolved) |

## Left out

- Drawing: draw(), the colour styles and the canvas are not modelled. Only the count of ten buckets is kept.
- clamp (windy.js:178-180) is never called by the program, so it is not modelled.
- ScreenField.Lookup: its own contract states only that an empty table holds nothing. What it reads on the table interpolateField builds is stated by LookupOnTable and LookupSharedByBlock.
- Driver.Animation.Frame: does not run draw(). draw() also commits `x := xt, y := yt` for every bucketed particle, so across ticks a visible particle in the model stays at its old position until it is stepped as hidden.
- Floating point: all arithmetic is on exact reals. NaN, Infinity and rounding error are not modelled.
- A zero grid spacing is modelled as a null interpolation. In JavaScript it gives infinite or NaN indices that match no cell.
- The Mercator invert and project, mercY, distortion, deg2rad and rad2deg are not modelled. They are transcendental. invert and distortion are the inputs `Env.invert` and `Env.distortion`, and the map extent they are built from is not modelled.
- Grid.Bilinear: Math.sqrt is the abstract `Norm`, so the contract states `m == norm(u, v)` of the blended components and `m >= 0`, but not `m*m = u*u + v*v`.
- Math.random is the draw stream of `Random.Rng`; the draws themselves are not modelled.
- Browser detection: isMobile reads the user agent, so it is a parameter of Start.
- Dates: the Date computation of start_date and end_date from refTime and forecastTime is not modelled. Start takes both as millisecond parameters.
- Date.setTime's range limit (TimeClip to NaN) is not modelled.
- The callback result's `date` field is not modelled.
- Scheduling: the Date.now time budget and setTimeout rescheduling of interpolateField are not modelled. The column fill runs to completion, which yields the same table.
- requestAnimationFrame and its shim, frame's try/catch, and window.capturer are not modelled.
- Listeners are not called. Their setTimeout dispatch becomes the list of `Notice`s evolve schedules.
- Restarts: animation loops of an earlier start keep running in the source because STOPPED is shared. The model keeps no scheduler, so it does not capture that.
- Driver.Windy.Start: returns None when the records do not form a usable series: no u frame, fewer v frames than u frames, or frames too short for nx*ny samples. The source does not check. With no u frame, or no v frame for a u frame it reads, it throws. With short data arrays it reads undefined samples and produces NaN winds, which the model does not represent. Extra v frames are accepted and never read, as in the source.
- Driver.Windy.Start: the assignment `windy.field = field` is represented by the returned animation's field.
- Shared buffers: the scratch buffers buf0–buf3, fieldBuf and the aliasing of memoized_v with the caller's buffer are not modelled. Results are values. Because of this aliasing, a memo hit in the source returns whatever the shared buffer now holds; the model returns the memoized value itself.
- Memos: `TimeBlend.WindBuilder` and `ScreenField.WindPoint` model the memos of `_progress` and `wind_obj.fn` and are proved to return the pure `BlendAt` and `PixelValue`. The rest of the pipeline uses those pure functions, not one shared memo object.
- Particles are values and buckets hold particle indices instead of particle references. Each index is in at most one bucket, so the two are equivalent.
- `t || 0` in interpolate and fn is not modelled: time is a `Time` (a real >= 0), which is all the callers pass.
- The probe `field(x, y, 0)` inside randomize's retry test affects only the memo. The test always fails, so the model leaves the probe out.
- createBuilder's `scalar` record is remembered but never read, so it is not modelled.
- `~~p` is a 32-bit truncation. It is modelled as truncation toward zero, which agrees because p lies in [0, frames - 1].
- The loops of resetParticles and evolve build local copies of the particles and buckets and write them back at the end. The result is the same as updating in place, because nothing else reads them in between.
