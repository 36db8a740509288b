# BlurDetect, modelled in Dafny

BlurDetect is an AviSynth+ filter. For every processed plane of a frame it
computes one "blurriness" score: the average width of the edges in the plane.
Sharp images have narrow edges and a low score. One plane goes through five
stages (`src/blurdetect.cpp`):

1. `gaussian_blur`: a 5x5 fixed-weight smoother. Weights sum to 159, and the
   sum is divided by 159. The two outer rows and columns are copied unchanged.
2. `sobel`: the Sobel responses gx and gy of every interior pixel. It stores
   the magnitude |gx| + |gy| and a direction. The direction comes from
   `get_rounded_direction`, a fixed-point bucketing of atan(gy/gx) into four
   orientations.
3. `non_maximum_suppression`: writes into a zeroed buffer. A pixel keeps
   min(gradient, peak) only when it is strictly above both of its neighbours
   along its direction.
4. `double_threshold`: keeps pixels above `high`. Pixels above `low` are kept
   only when the pixel is interior and some 8-neighbour is above `high`. The
   pass is run in place: source and destination are the same buffer.
5. `edge_width` and `calculate_blur`: from each kept pixel, walk backwards and
   forwards along its direction to the flanking extrema, for at most `radius`
   steps each. Diagonal widths are scaled by 0.7. The widths are then averaged
   per block; blocks with too little edge are dropped. The block averages are
   sorted, and the score is the mean of the sharpest `block_pct` percent.

Creation validates the arguments, selects the planes and picks a per-bit-depth
profile: the peak and the fixed-point tangent coefficients.

Each stage follows the same pattern in the model:

- Buffers are flat row-major `array<nat>` or `array<Direction>` values.
- Each stage is a `method` with the source's loops.
- Each method is proved equal to a specification function on sequences:
  `Blurred`, `Gradients`/`DirectionsOf`, `Suppressed`, `Thresholded`,
  `EdgeWidthOf` and `BlurScore`.
- The promised properties are proved as lemmas about those functions.

The pure parts are functions: the angle classifier, the profile table and
argument validation. Modules follow the stages:

| module | stage |
|---|---|
| `Plane` | indexing |
| `BitDepth` | profile table |
| `Directions` | angle classifier |
| `Gauss` | smoothing |
| `Gradient` | Sobel |
| `Suppression` | non-maximum suppression |
| `Threshold` | double threshold |
| `EdgeWidth` | edge-width walk |
| `Pooling` | block pooling |
| `Config` | creation |
| `Pipeline` | one plane end to end |

## Model

| member | source | states |
|---|---|---|
| BitDepth.ProfileMatchesBitDepth | src/blurdetect.cpp:500-556 | For 8, 10, 12, 14 and 16 bits, the peak is 2^bits - 1 and the unit is 1 << (16 - (bits - 8)). Both coefficients are the integers nearest to tan(pi/8) and tan(3pi/8) times the unit, and the bands are ordered. The unit times 2^bits is 2^24 (by BitDepth.Pow2Add). |
| BitDepth.Pow2Add | src/blurdetect.cpp:500-556 | 2^(a + b) = 2^a * 2^b, the shift identity behind the per-depth units. |
| BitDepth.ProfileAsWritten | src/blurdetect.cpp:500-556 | The switch as written, with 16 bits as the default branch. Every branch has a positive peak and 0 < c1 < unit < c2, and every tan(pi/8) coefficient is the nearest integer in its unit. The tan(3pi/8) coefficient is also the nearest integer at every depth but 12. |
| BitDepth.ProfileWellFormed | src/blurdetect.cpp:500-556 | Every depth, including the default branch, gets a positive peak and coefficients 0 < c1 < unit < c2. |
| BitDepth.ProfileFor | src/blurdetect.cpp:500-556 | The corrected table agrees with the switch in peak, unit and tan(pi/8) coefficient. It is the switch itself for every depth but 12. |
| BitDepth.TwelveBitCoefficientMisrounded | src/blurdetect.cpp:529-531 | The 12-bit tan(3pi/8) coefficient 9887 is not the nearest integer to (sqrt 2 + 1) * 4096. The corrected 9889 is. |
| BitDepth.ClassifierArithmeticFitsInt32 | src/blurdetect.cpp:55-60 | With abs(gx), abs(gy) <= 4 * peak, the negations and the products gy * unit, c1 * gx and c2 * gx fit a 32-bit signed int at every depth, both for the switch as written (with its 12-bit 9887) and for the corrected profile. |
| Directions.RoundedDirection | src/blurdetect.cpp:53-70 | A zero gx always gives Vertical. |
| Directions.FixedPointMatchesSlope | src/blurdetect.cpp:42-67 | For gx != 0, the fixed-point comparisons give the same bucket as comparing the real slope gy/gx against c1/unit and c2/unit. Open bands: Up45, Horizontal, Down45; anything else is Vertical. |
| Directions.NormalisedMatchesSlope | src/blurdetect.cpp:57-67 | After the sign normalisation (ax > 0), the band test on ay * unit against c1 * ax and c2 * ax agrees with the real-slope bucket. |
| Directions.HalfTurnInvariant | src/blurdetect.cpp:55-56 | Negating both gx and gy never changes the direction. |
| Directions.ReflectionSwapsDiagonals | src/blurdetect.cpp:62-67 | Negating gy swaps Up45 and Down45 and keeps Horizontal and Vertical. |
| Directions.NoVerticalGradientIsHorizontal | src/blurdetect.cpp:64-65 | A non-zero gx with gy = 0 is Horizontal. |
| Directions.SuppressionFlanksWalkStep | src/blurdetect.cpp:184-187 | Both tables use the same axis. For each direction, the two neighbours suppression compares against are (-dx, -dy) and (dx, dy) of the edge-width walk step (:238-241), and that step is a non-zero unit step. |
| Directions.TwelveBitMisclassifiesSteepDiagonal | src/blurdetect.cpp:531 | gx = 2500, gy = 6035 is within the 12-bit gradient range and its slope lies below tan(3pi/8). The switch's coefficients classify it Vertical; the corrected ones classify it Down45. |
| Gauss.WeightsSumTo159 | src/blurdetect.cpp:124-140 | The 25 mask weights sum to the divisor 159. |
| Gauss.BorderCopied | src/blurdetect.cpp:108-119 | At rows 0, 1, h-2, h-1 and columns 0, 1, w-2, w-1, the output equals the input sample read through the source pitch. The other border writes are at :143-154. |
| Gauss.InteriorWeighted | src/blurdetect.cpp:121-140 | Every other pixel is the mask-weighted sum of its 5x5 neighbourhood, integer-divided by 159. |
| Gauss.MaskMatchesSourceGrouping | src/blurdetect.cpp:124-140 | The source's grouped 25-term expression, with its paired rows, equals the row-by-row mask sum. |
| Gauss.FlatPlaneUnchanged | src/blurdetect.cpp:102-155 | A constant plane is mapped to itself. |
| Gauss.SmoothingBounded | src/blurdetect.cpp:102-155 | If every input sample is at most m, so is every output sample. |
| Gauss.MaskSumBounds | src/blurdetect.cpp:124-140 | With the neighbourhood in [lo, hi], the weighted sum lies in [159 lo, 159 hi]. |
| Gauss.SmoothCell | src/blurdetect.cpp:124-140 | The source's inline expression for one interior pixel is that pixel of the specification. |
| Gauss.GaussianBlur | src/blurdetect.cpp:102-155 | The output buffer after the pass is the smoothed plane of the input read through its pitch. |
| Gradient.OnlyInteriorWritten | src/blurdetect.cpp:79-98 | Interior cells get abs(gx) + abs(gy) and the rounded direction. Every border cell keeps its previous value in both buffers. |
| Gradient.ResponsesBounded | src/blurdetect.cpp:87-96 | With samples at most peak, gx and gy lie in [-4 peak, 4 peak] as the comment at :46 gives (for 8 bits, [-1020, 1020]). The magnitude is at most 6 peak. |
| Gradient.FlatPlaneNoGradient | src/blurdetect.cpp:87-97 | On a constant plane, gx = gy = 0, the magnitude is 0 and the direction is Vertical. |
| Gradient.ZeroedBorderStaysZero | src/blurdetect.cpp:79-98 | Starting from a zeroed gradient buffer, the border of the gradient plane stays zero. |
| Gradient.ResponsesMatchSource | src/blurdetect.cpp:87-94 | The source's flat-buffer expressions for gx and gy are the Sobel responses at (x, y). |
| Gradient.SobelAt | src/blurdetect.cpp:87-97 | One interior cell yields exactly the Sobel magnitude and the rounded direction. |
| Gradient.Sobel | src/blurdetect.cpp:73-100 | The two buffers after the pass are the gradient plane and the direction plane of the input. Border cells keep their previous contents. |
| Suppression.SuppressionLaw | src/blurdetect.cpp:161-191 | With a zeroed destination, border pixels are 0. An interior pixel not strictly above both direction neighbours is 0. Otherwise it is min(gradient, peak). |
| Suppression.SuppressionBounded | src/blurdetect.cpp:169 | Every output is at most peak and at most its own gradient. |
| Suppression.SuppressionBorderZero | src/blurdetect.cpp:174-180 | The output border is zero. |
| Suppression.FlatGradientSuppressed | src/blurdetect.cpp:167-168 | A constant gradient plane has no strict maximum, so the output is all zero. |
| Suppression.MaximaLaw | src/blurdetect.cpp:182-188 | With the offsets the switch picks for the pixel's direction, both neighbours lie in the plane. The cell's specification is the strict-maximum test on those two neighbours. |
| Suppression.CopyMaxima | src/blurdetect.cpp:163-172 | The buffer changes at most at the current cell. That cell becomes min(c, peak) when c is above both neighbours; otherwise it is untouched. |
| Suppression.SuppressCell | src/blurdetect.cpp:182-188 | The switch on the direction writes exactly the cell's suppression value and nothing else. |
| Suppression.NonMaximumSuppression | src/blurdetect.cpp:157-191 | The destination after the pass is the suppressed plane of the gradients and directions over its previous contents. |
| Threshold.CellLaw | src/blurdetect.cpp:201-219 | Each output is the input or 0. Inputs above high are kept. Border inputs at most high become 0. An output is above high exactly when its input is. |
| Threshold.WeakSampleKeptIff | src/blurdetect.cpp:207-219 | A sample at most high comes out non-zero iff it is interior, above low, non-zero, and some 8-neighbour is above high (any, not all). |
| Threshold.OutputIsInputOrZero | src/blurdetect.cpp:201-219 | Pointwise, the output is the input or 0, and above-high samples are exactly the same. |
| Threshold.BorderAndBoundKept | src/blurdetect.cpp:201-219 | A zero border stays zero, and a bound on the input bounds the output. |
| Threshold.StrongNeighbourAgrees | src/blurdetect.cpp:209-216 | The neighbour test only depends on which samples are above high. |
| Threshold.Idempotent | src/blurdetect.cpp:195-225 | A second pass with the same thresholds changes nothing. |
| Threshold.NeighbourTestsMatch | src/blurdetect.cpp:209-216 | The eight flat-buffer reads, on any buffer that agrees with the input about which samples are above high, decide the neighbour test. |
| Threshold.ThresholdValue | src/blurdetect.cpp:201-219 | The value written for a cell is the out-of-place specification's value, even in a buffer already partly rewritten. |
| Threshold.DoubleThreshold | src/blurdetect.cpp:195-225 | With dst and src the same array (as at :407) or different ones, the destination is the threshold of the original input. |
| EdgeWidth.WalkBounded | src/blurdetect.cpp:249-284 | A walk that stops has taken between 0 and radius steps. |
| EdgeWidth.EdgeWidthBounds | src/blurdetect.cpp:229-291 | Each side's count is at most radius and the width lies in [0, 2 radius]. The width is 0 iff a walk left the plane or both stopped at once. |
| EdgeWidth.NonZeroWidthIsAtLeastSevenTenths | src/blurdetect.cpp:287-288 | A non-zero width is at least 0.7, so the `> 0.001` test at :323 drops exactly the zero widths. |
| EdgeWidth.FlatPlaneHasNoWidth | src/blurdetect.cpp:246-284 | On a constant plane the width is 0. |
| EdgeWidth.Search | src/blurdetect.cpp:249-283 | Each search loop returns the walk of the specification: escaped (the source's return 0) or the stopping step count. |
| EdgeWidth.EdgeWidthAt | src/blurdetect.cpp:229-291 | The returned width is the specification's width: 0 if either walk escapes, otherwise the sum of the two counts, times 0.7 on the diagonals. |
| Pooling.SortOrdersAndPermutes | src/blurdetect.cpp:341 | The sort yields an ascending permutation of the block averages. |
| Pooling.SumSort | src/blurdetect.cpp:341-347 | Sorting does not change the sum. |
| Pooling.KeepCountBounds | src/blurdetect.cpp:342 | The kept count is the ceiling of n * pct / 100. It is at most n, at least 1 when n >= 1, and n when pct = 100. |
| Pooling.PoolAtMostMean | src/blurdetect.cpp:340-349 | The score is 0 with no blocks. Otherwise it is at most the mean of all included blocks, and equals it when pct = 100. |
| Pooling.PoolWithin | src/blurdetect.cpp:340-349 | The score lies in every range that contains all block averages. |
| Pooling.BlockAveragesBounded | src/blurdetect.cpp:298-338 | Every block average lies in [0.7, 2 radius]. At most (w / bw) * (h / bh) complete blocks contribute, and with -1 for both dimensions at most one. |
| Pooling.BlurScoreBounds | src/blurdetect.cpp:293-349 | The score is 0 iff no block is included. Otherwise it lies in [0.7, 2 radius] and is at most the mean of the block averages. |
| Pooling.NoEdgesScoreZero | src/blurdetect.cpp:319-349 | A plane where the thresholds kept nothing has no included block and scores 0. |
| Pooling.BackNeighbourInPlane | src/blurdetect.cpp:246 | On a plane with a zero border, every pixel that passes the `> 0` test at :319 has its one-step-back neighbour in the plane. |
| Pooling.TallyBlock | src/blurdetect.cpp:309-330 | The count and total of one block are the block's tally of measured widths. |
| Pooling.CollectRow | src/blurdetect.cpp:307-337 | One block row appends exactly the averages of its included blocks, left to right. |
| Pooling.MeanOfSharpest | src/blurdetect.cpp:340-349 | Sorting, keeping the first ceil(n * pct / 100) averages and summing them in the source's loop gives the pooled score: their mean, or 0 when none are kept. |
| Pooling.CalculateBlur | src/blurdetect.cpp:293-350 | The returned score is the specification's blur score of the edge plane. |
| Config.LevelBounds | src/blurdetect.cpp:504-549 | Thresholds in 0.0..1.0 become levels in 0..peak and keep their order. |
| Config.PlaneSelectionSpec | src/blurdetect.cpp:482-498 | Selection succeeds iff every listed index is a component of the clip and none repeats. It then marks exactly the listed planes, or all four when none are listed. |
| Config.SelectPlanes | src/blurdetect.cpp:482-498 | The two loops over the process table return the selection of Config.PlaneSelectionSpec. Unlike the guard at :491, they also reject a negative index (see "## Left out"). |
| Config.CreateAcceptsExactly | src/blurdetect.cpp:455-498 | Creation succeeds iff: the clip is planar and not 32-bit; 0 <= low <= high <= 1; radius and block_pct are in 1..100; both block dimensions are >= -1; and every listed plane is in 0..num_components-1 with no repeat. Undefined arguments take their defaults. A negative index is rejected here, which the source does not do (see "## Left out"). |
| Config.Create | src/blurdetect.cpp:455-556 | The checks run in the source's order: a clip that is not planar fails with that error first, then a 32-bit one. Accepted settings have radius and block_pct in 1..100, block dimensions >= -1 and the corrected profile of the clip's depth. |
| Config.CreatedSettingsInRange | src/blurdetect.cpp:460-556 | Accepted settings have 0 <= low <= high <= peak, in-range pooling parameters, a four-slot plane table and the depth's well-formed profile. That profile equals the source's switch at every depth but 12; at 12 it differs only in the tan(3pi/8) coefficient. |
| Config.ZeroBlockDimensionPassesChecks | src/blurdetect.cpp:477-480 | block_width = 0 passes creation, yet it is not a dimension the pooling can divide by (:300-301). |
| Pipeline.EdgePlaneBorderZero | src/blurdetect.cpp:404-407 | Suppression into a zeroed buffer, then the threshold, leaves a zero border. This is what makes edge_width's unchecked neighbour read safe. |
| Pipeline.MeasurePlane | src/blurdetect.cpp:387-409 | The measurement with value-initialised buffers and the in-place threshold gives the specification's plane score. |
| Pipeline.PlaneScoreBounds | src/blurdetect.cpp:387-409 | A plane's score is 0 or lies in [0.7, 2 radius]. |
| Pipeline.FlatPlaneScoresZero | src/blurdetect.cpp:387-409 | A constant plane scores 0. |

## Left out

- Host plumbing is not modelled: frame fetch, property writes and plane names (:353-414), `free_blurdetect`, `set_cache_hints_blurdetect`, the plugin entry point and the AviSynth version checks in `Create_blurdetect`.
- Allocation with `make_unique` is modelled as arrays initialised to 0 (a direction of 0 is Up45). The uint8_t/uint16_t templates and function-pointer dispatch are replaced by one sample type, `nat`.
- Float arithmetic is modelled with exact reals, not IEEE floats. This covers the 0.7f scaling, the double block total, the float block array and average, and the float score. The percentile cut `ceilf(blkcnt * (d.block_pct / 100.0f))` (:342) is taken as the exact ceiling; see the Pooling.KeepCount line.
- Config.Level: models the float threshold conversion `(int)(v * peak + 0.5f)` exactly, without float rounding.
- Pooling.KeepCount: is the exact integer ceiling `(n * pct + 99) / 100` of n * pct / 100. The source first rounds `block_pct / 100.0f` to a float and then multiplies, so for some percentages the float product lands just above an integer and `ceilf` keeps one block more. For example, with pct = 60 and 25 blocks, 0.6f is 0.600000024, 25 * 0.6f rounds to 15.000001, and the source keeps 16 blocks where the model keeps 15. The default pct of 80 does not show this.
- `std::sort` is modelled as a functional insertion sort on the block averages, proved to give an ascending permutation. The in-place sort of the float buffer is not modelled.
- Gauss.GaussianBlur: requires w >= 2 and h >= 4. With h < 4 the source's four row copies (:108-154) write past the w * h buffer. With w = 1 every write stays inside the buffer, but `dstp[1]` at :119 lands on the next row's column 0, `dstp[width - 2]` at :143 on the previous row's last cell, and `srcp[1]` reads past the row's one sample. The model does not capture this aliasing of neighbouring rows.
- Pooling.CalculateBlur: requires a positive block dimension, or -1 on a non-empty plane. The source also accepts 0 (Config.ZeroBlockDimensionPassesChecks) and then divides by zero at :300-301.
- Pooling.CalculateBlur: requires a zero border on the edge plane, because edge_width reads the neighbour one step back without a bounds check (:246). The pipeline discharges this with Pipeline.EdgePlaneBorderZero.
- Pooling.CellWidth: also tests that the back neighbour is in the plane. On a zero-border plane this test always holds (Pooling.BackNeighbourInPlane).
- EdgeWidth: the source's `default:` direction case is not modelled, because the four-valued Direction type has no other value.
- Config.Create: uses the corrected profile (BitDepth.ProfileFor), whose 12-bit tan(3pi/8) coefficient is 9889. The source stores 9887 (:531), so every other stage of the model classifies 12-bit gradients with the corrected value. The switch as written is BitDepth.ProfileAsWritten; the gradients where the two differ are the first row of "## Findings".
- Config.SelectPlanes, Config.SelectFrom, Config.CreateAcceptsExactly: reject a negative plane index. The source's guard at :491 lets it through and then writes `process[n]` out of bounds (:494, :497), which is undefined behaviour; the as-written guard is Config.PlaneRejectedAsWritten (second row of "## Findings").
- Config: the number of components is taken to be 1..4, which is what the host guarantees for planar clips.
- The sample type is unbounded `nat`. The 32-bit ranges of the classifier's products are proved separately (BitDepth.ClassifierArithmeticFitsInt32).
- The host's row pitch is kept for the smoothing input only; every work buffer has pitch equal to width, as in the source.

## Findings

| source | as written | input that shows it | evidently intended | confidence | as-written member | corrected member |
|---|---|---|---|---|---|---|
| src/blurdetect.cpp:531 | 12-bit `scale_coef2 = 9887` | gx = 2500, gy = 6035 (slope 2.414 < tan(3pi/8)): as written it is classified Vertical | round((sqrt(2) + 1) * 4096) = 9889, which classifies it Down45 | not executed | BitDepth.ProfileAsWritten, BitDepth.TwelveBitCoefficientMisrounded, Directions.TwelveBitMisclassifiesSteepDiagonal | BitDepth.ProfileFor, BitDepth.ProfileMatchesBitDepth |
| src/blurdetect.cpp:491 | the plane index is rejected only when `n >= num_components` | planes = [-1]: passes the test, then `d->process[-1]` is written out of bounds | reject any n outside 0..num_components-1 | not executed | Config.PlaneRejectedAsWritten, Config.NegativePlaneIndexPassesGuard | Config.SelectFrom, Config.PlaneSelectionSpec |
