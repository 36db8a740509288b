/** Filter creation (src/blurdetect.cpp:423-556): the argument defaults, the
    range checks in the order the source makes them, the selection of the
    planes to process, and the conversion of the thresholds to sample levels
    with the bit-depth profile. */
module Config {
  import opened BitDepth
  import opened Pooling

  datatype Option<T> = None | Some(value: T)

  function OrElse<T>(o: Option<T>, d: T): T {
    match o
    case Some(v) => v
    case None => d
  }

  /** The errors creation can report, one per check. */
  datatype ConfigError =
    | NotPlanar | NotEightToSixteenBit
    | LowOutOfRange | HighOutOfRange | LowAboveHigh
    | RadiusOutOfRange | BlockPctOutOfRange | BlockWidthOutOfRange | BlockHeightOutOfRange
    | PlaneOutOfRange | PlaneTwice

  datatype Result<T> = Ok(value: T) | Err(error: ConfigError)

  /** What creation needs to know about the clip. */
  datatype Format = Format(planar: bool, componentSize: int, bitsPerComponent: int, numComponents: int)

  /** The script arguments; None is an argument left undefined. */
  datatype Args = Args(low: Option<real>, high: Option<real>, radius: Option<int>, blockPct: Option<int>,
                       blockWidth: Option<int>, blockHeight: Option<int>, planes: Option<seq<int>>)

  /** The filter's settings: thresholds as sample levels, the pooling
      parameters, which of the four planes to process, and the profile. */
  datatype Settings = Settings(low: int, high: int, radius: int, blockPct: int, blockWidth: int,
                               blockHeight: int, process: seq<bool>, profile: Profile)

  const DefaultLow: real := 0.05882353
  const DefaultHigh: real := 0.11764706
  const DefaultRadius: int := 50
  const DefaultBlockPct: int := 80

  /** A threshold in 0.0 .. 1.0 as a sample level: v * peak rounded half up. */
  function Level(v: real, peak: nat): int {
    (v * peak as real + 0.5).Floor
  }

  /** Levels of thresholds in 0.0 .. 1.0 lie in 0 .. peak and keep their order. */
  lemma LevelBounds(lo: real, hi: real, peak: nat)
    requires 0.0 <= lo <= hi <= 1.0
    ensures 0 <= Level(lo, peak) <= Level(hi, peak) <= peak
  {
    assert lo * peak as real <= hi * peak as real <= peak as real;
  }

  // ---- plane selection ----

  /** The safety test as written: an index is rejected only when it is at
      least the number of components, so a negative index gets through. */
  predicate PlaneRejectedAsWritten(n: int, numComponents: int) {
    n >= numComponents
  }

  /** A negative plane index passes the source's test and would then index
      the four-slot process table out of bounds. */
  lemma NegativePlaneIndexPassesGuard()
    ensures !PlaneRejectedAsWritten(-1, 3) && !(0 <= -1 < 4)
  {
  }

  /** Plane k onward of `planes`, given the table so far: each index is
      checked to be a component of the clip (negative ones included), then
      checked not to be chosen already, then marked. */
  function SelectFrom(planes: seq<int>, numComponents: int, k: nat, process: seq<bool>): Result<seq<bool>>
    requires k <= |planes| && |process| == 4 && numComponents <= 4
    decreases |planes| - k
  {
    if k == |planes| then Ok(process)
    else
      var n := planes[k];
      if n < 0 || n >= numComponents then Err(PlaneOutOfRange)
      else if process[n] then Err(PlaneTwice)
      else SelectFrom(planes, numComponents, k + 1, process[n := true])
  }

  /** Every plane when none are listed, otherwise the listed ones. */
  function PlaneSelection(planes: seq<int>, numComponents: int): Result<seq<bool>>
    requires numComponents <= 4
  {
    SelectFrom(planes, numComponents, 0, seq(4, _ => |planes| <= 0))
  }

  lemma {:induction false} SelectFromSpec(planes: seq<int>, numComponents: int, k: nat, process: seq<bool>)
    requires k <= |planes| && |process| == 4 && numComponents <= 4
    requires forall i :: 0 <= i < 4 ==> (process[i] <==> i in planes[..k])
    ensures var r := SelectFrom(planes, numComponents, k, process);
      (r.Ok? <==>
        (forall m :: k <= m < |planes| ==> 0 <= planes[m] < numComponents) &&
        (forall m1, m2 :: 0 <= m1 < m2 < |planes| && k <= m2 ==> planes[m1] != planes[m2])) &&
      (r.Ok? ==> |r.value| == 4 && forall i :: 0 <= i < 4 ==> (r.value[i] <==> i in planes))
    decreases |planes| - k
  {
    if k == |planes| {
      assert planes[..k] == planes;
    } else {
      var n := planes[k];
      if n < 0 || n >= numComponents {
      } else if process[n] {
        var m1 :| 0 <= m1 < k && planes[m1] == n;
      } else {
        var next := process[n := true];
        assert planes[..k + 1] == planes[..k] + [n];
        forall i | 0 <= i < 4
          ensures next[i] <==> i in planes[..k + 1]
        {
        }
        SelectFromSpec(planes, numComponents, k + 1, next);
        forall m1 | 0 <= m1 < k
          ensures planes[m1] != n
        {
          assert planes[m1] in planes[..k];
        }
      }
    }
  }

  /** Selection succeeds exactly when every listed index is a component of
      the clip and none is listed twice; it then marks the listed planes, or
      all four when none are listed. */
  lemma PlaneSelectionSpec(planes: seq<int>, numComponents: int)
    requires 1 <= numComponents <= 4
    ensures var r := PlaneSelection(planes, numComponents);
      (r.Ok? <==>
        (forall m :: 0 <= m < |planes| ==> 0 <= planes[m] < numComponents) &&
        (forall m1, m2 :: 0 <= m1 < m2 < |planes| ==> planes[m1] != planes[m2])) &&
      (r.Ok? ==> |r.value| == 4 && forall i :: 0 <= i < 4 ==> (r.value[i] <==> (|planes| == 0 || i in planes)))
  {
    if |planes| > 0 {
      SelectFromSpec(planes, numComponents, 0, seq(4, _ => |planes| <= 0));
    }
  }

  /** The source's two plane loops over its four-slot process table. */
  method SelectPlanes(planes: seq<int>, numComponents: int) returns (r: Result<seq<bool>>)
    requires numComponents <= 4
    ensures r == PlaneSelection(planes, numComponents)
  {
    var numPlanes := |planes|;
    var process := new bool[4];
    for i := 0 to 4
      invariant forall m :: 0 <= m < i ==> process[m] == (numPlanes <= 0)
    {
      process[i] := numPlanes <= 0;
    }
    assert process[..] == seq(4, _ => |planes| <= 0);
    for i := 0 to numPlanes
      invariant SelectFrom(planes, numComponents, i, process[..]) == PlaneSelection(planes, numComponents)
    {
      var n := planes[i];
      if n < 0 || n >= numComponents {
        return Err(PlaneOutOfRange);
      }
      if process[n] {
        return Err(PlaneTwice);
      }
      process[n] := true;
    }
    return Ok(process[..]);
  }

  // ---- creation ----

  /** The checks in the source's order, then the depth's profile and the
      thresholds as levels of its peak. The host's version checks are not
      part of this model. */
  function Create(f: Format, a: Args): (r: Result<Settings>)
    requires 1 <= f.numComponents <= 4
    ensures !f.planar ==> r == Err(NotPlanar)
    ensures f.planar && f.componentSize == 4 ==> r == Err(NotEightToSixteenBit)
    ensures r.Ok? ==> 1 <= r.value.radius <= 100 && 1 <= r.value.blockPct <= 100
    ensures r.Ok? ==> r.value.blockWidth >= -1 && r.value.blockHeight >= -1
    ensures r.Ok? ==> r.value.profile == ProfileFor(f.bitsPerComponent)
  {
    var low, high := OrElse(a.low, DefaultLow), OrElse(a.high, DefaultHigh);
    var radius, pct := OrElse(a.radius, DefaultRadius), OrElse(a.blockPct, DefaultBlockPct);
    var bw, bh := OrElse(a.blockWidth, -1), OrElse(a.blockHeight, -1);
    if !f.planar then Err(NotPlanar)
    else if f.componentSize == 4 then Err(NotEightToSixteenBit)
    else if low < 0.0 || low > 1.0 then Err(LowOutOfRange)
    else if high < 0.0 || high > 1.0 then Err(HighOutOfRange)
    else if low > high then Err(LowAboveHigh)
    else if radius < 1 || radius > 100 then Err(RadiusOutOfRange)
    else if pct < 1 || pct > 100 then Err(BlockPctOutOfRange)
    else if bw < -1 then Err(BlockWidthOutOfRange)
    else if bh < -1 then Err(BlockHeightOutOfRange)
    else
      match PlaneSelection(OrElse(a.planes, []), f.numComponents)
      case Err(e) => Err(e)
      case Ok(process) =>
        var p := ProfileFor(f.bitsPerComponent);
        Ok(Settings(Level(low, p.peak), Level(high, p.peak), radius, pct, bw, bh, process, p))
  }

  /** Creation succeeds exactly when the clip is planar and not 32-bit and
      every argument, defaulted where undefined, is in range. */
  lemma CreateAcceptsExactly(f: Format, a: Args)
    requires 1 <= f.numComponents <= 4
    ensures var low, high := OrElse(a.low, DefaultLow), OrElse(a.high, DefaultHigh);
      var radius, pct := OrElse(a.radius, DefaultRadius), OrElse(a.blockPct, DefaultBlockPct);
      var planes := OrElse(a.planes, []);
      Create(f, a).Ok? <==>
        f.planar && f.componentSize != 4 && 0.0 <= low <= high <= 1.0 &&
        1 <= radius <= 100 && 1 <= pct <= 100 &&
        OrElse(a.blockWidth, -1) >= -1 && OrElse(a.blockHeight, -1) >= -1 &&
        (forall m :: 0 <= m < |planes| ==> 0 <= planes[m] < f.numComponents) &&
        (forall m1, m2 :: 0 <= m1 < m2 < |planes| ==> planes[m1] != planes[m2])
  {
    PlaneSelectionSpec(OrElse(a.planes, []), f.numComponents);
  }

  /** Accepted settings keep 0 <= low <= high <= peak, radius in 1 .. 100,
      block_pct in 1 .. 100, block dimensions of at least -1, a well-formed
      profile, and the bits-per-component's profile. */
  lemma CreatedSettingsInRange(f: Format, a: Args)
    requires 1 <= f.numComponents <= 4 && Create(f, a).Ok?
    ensures var s := Create(f, a).value;
      0 <= s.low <= s.high <= s.profile.peak && 1 <= s.radius <= 100 && 1 <= s.blockPct <= 100 &&
      s.blockWidth >= -1 && s.blockHeight >= -1 && |s.process| == 4 &&
      s.profile == ProfileFor(f.bitsPerComponent) && WellFormed(s.profile)
    ensures var s, p := Create(f, a).value, ProfileAsWritten(f.bitsPerComponent);
      s.profile.peak == p.peak && s.profile.scaleCoef == p.scaleCoef && s.profile.scaleCoef1 == p.scaleCoef1 &&
      (f.bitsPerComponent != 12 ==> s.profile == p)
  {
    PlaneSelectionSpec(OrElse(a.planes, []), f.numComponents);
    LevelBounds(OrElse(a.low, DefaultLow), OrElse(a.high, DefaultHigh), ProfileFor(f.bitsPerComponent).peak);
    ProfileWellFormed(f.bitsPerComponent);
  }

  /** The checks let a block dimension of 0 through, which the pooling
      cannot divide by: the pooling's own precondition has to exclude it. */
  lemma ZeroBlockDimensionPassesChecks(w: nat)
    ensures var a := Args(None, None, None, None, Some(0), None, None);
      var f := Format(true, 1, 8, 3);
      Create(f, a).Ok? && Create(f, a).value.blockWidth == 0 && !BlockDimOk(0, w)
  {
    PlaneSelectionSpec([], 3);
  }
}
