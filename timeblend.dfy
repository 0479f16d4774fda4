/**
 * createWindBuilder: the u and v frame series, `_progress` (which two frames
 * surround a time t and with what weight) and `_data` (the linear blend of
 * those two frames at one flat grid index), with the builder's one-slot
 * memo of the last time asked for.
 */
module TimeBlend {
  import opened JsNumbers
  import opened Forecast
  import opened Settings

  /**
   * The series createWindBuilder receives. The source takes the grid shape
   * from uComp[0] and indexes every frame with it without checking;
   * `Valid` states what it silently relies on: at least one u frame, a v
   * frame for every u frame (extra v frames are never read), and nx*ny
   * samples in every frame that is read. Its `steps` argument is always
   * TIMELAPSE_FRAMES, so it is not a field here.
   */
  datatype WindSeries = WindSeries(uComp: seq<Record>, vComp: seq<Record>)
  {
    predicate Valid() {
      && |uComp| >= 1
      && |vComp| >= |uComp|
      && (forall k :: 0 <= k < |uComp| ==> |uComp[k].data| >= uComp[0].header.nx * uComp[0].header.ny)
      && (forall k :: 0 <= k < |uComp| ==> |vComp[k].data| >= uComp[0].header.nx * uComp[0].header.ny)
    }
  }

  type Series = s: WindSeries | s.Valid()
    witness WindSeries([Record(Header(0.0, 0.0, 0.0, 0.0, 0, 0, 2, 2), [])],
                       [Record(Header(0.0, 0.0, 0.0, 0.0, 0, 0, 2, 3), [])])

  /** builder.header: the grid description of the first u frame. */
  function GridHeader(s: Series): Header {
    s.uComp[0].header
  }

  /** Number of grid points, nx*ny. */
  function Cells(s: Series): nat {
    GridHeader(s).nx * GridHeader(s).ny
  }

  /** The series a createBuilder split yields, if it is one createWindBuilder can use. */
  function MakeSeries(uComp: seq<Record>, vComp: seq<Record>): (r: Option<Series>)
    ensures r.Some? <==> WindSeries(uComp, vComp).Valid()
    ensures r.Some? ==> r.value.uComp == uComp && r.value.vComp == vComp
    ensures |uComp| == 0 || |vComp| < |uComp| ==> r.None?
  {
    var s := WindSeries(uComp, vComp);
    if s.Valid() then Some(s) else None
  }

  /** createBuilder's `steps` argument, TIMELAPSE_FRAMES, as a number. */
  const STEPS: real := TIMELAPSE_FRAMES as real

  /** The record `_progress` caches: {p, p0, p1, p2, q}. */
  datatype Progress = Progress(p: real, p0: int, p1: real, p2: real, q: int)

  /** The shape of a Progress record over `frames` frames, as `_data` relies on it. */
  predicate WellFormed(pr: Progress, frames: nat) {
    && 0 <= pr.p0 <= pr.q <= frames - 1
    && (pr.q == pr.p0 + 1 || pr.p0 == frames - 1)
    && 0.0 <= pr.p1 < 1.0
    && pr.p2 == 1.0 - pr.p1
    && (pr.p0 == frames - 1 ==> frames == 1)
  }

  /**
   * `_progress(t)`: p = (t % steps)/steps * (n-1), p0 = ~~p, p1 = p - p0,
   * p2 = 1 - p1, and q = p0 + 1 unless p0 is already the last frame.
   * For t >= 0 and at least one frame, the two frames lie in the series,
   * q is the next frame unless p0 is the last one, and the blend weight p1
   * lies in [0, 1) with p2 its complement.
   */
  function ProgressAt(frames: nat, t: Time): (pr: Progress)
    ensures frames >= 1 ==> WellFormed(pr, frames)
  {
    RemainderOf1440(t);
    ProgressOfFraction(frames, JsRemainder(t, STEPS) / STEPS)
  }

  /** The part of `_progress` after the fraction (t % steps)/steps is known. */
  function ProgressOfFraction(frames: nat, frac: real): (pr: Progress)
    ensures frames >= 1 && 0.0 <= frac < 1.0 ==> WellFormed(pr, frames)
  {
    var m := frames as real - 1.0;
    var p := frac * m;
    var p0 := Trunc(p);
    var p1 := p - p0 as real;
    var q := if p0 == frames - 1 then p0 else p0 + 1;
    if frames >= 1 && 0.0 <= frac < 1.0 then
      PositionOfFraction(frames, frac, m);
      Progress(p, p0, p1, 1.0 - p1, q)
    else
      Progress(p, p0, p1, 1.0 - p1, q)
  }

  /**
   * The position frac * (frames - 1) of a fraction in [0, 1) truncates to
   * a frame before the last one, or to 0 for a single frame.
   */
  lemma PositionOfFraction(frames: nat, frac: real, m: real)
    requires frames >= 1 && 0.0 <= frac < 1.0 && m == (frames - 1) as real
    ensures 0.0 <= frac * m && 0 <= Trunc(frac * m)
    ensures Trunc(frac * m) as real <= frac * m < Trunc(frac * m) as real + 1.0
    ensures frames == 1 ==> Trunc(frac * m) == 0
    ensures frames > 1 ==> Trunc(frac * m) < frames - 1
  {
    FractionOf(frac, m);
    var p0 := Trunc(frac * m);
    assert p0 == Floor(frac * m);
    if frames > 1 {
      assert p0 as real < m;
    }
  }

  /** One component of `_data`: frame p0's sample weighted by p2 plus frame q's by p1. */
  function Lerp(a: real, b: real, pr: Progress): real {
    a * pr.p2 + b * pr.p1
  }

  /**
   * `_data(i, t)`: the (u, v) blend of frames p0 and q at flat index i; each
   * component lies between the two frames' samples it blends.
   */
  function BlendAt(s: Series, i: nat, t: Time): (r: (real, real))
    requires i < Cells(s)
    ensures var pr := ProgressAt(|s.uComp|, t);
      && 0 <= pr.p0 < |s.uComp| && 0 <= pr.q < |s.uComp|
      && Min(s.uComp[pr.p0].data[i], s.uComp[pr.q].data[i]) <= r.0
           <= Max(s.uComp[pr.p0].data[i], s.uComp[pr.q].data[i])
      && Min(s.vComp[pr.p0].data[i], s.vComp[pr.q].data[i]) <= r.1
           <= Max(s.vComp[pr.p0].data[i], s.vComp[pr.q].data[i])
  {
    var pr := ProgressAt(|s.uComp|, t);
    var u0, u1 := s.uComp[pr.p0].data[i], s.uComp[pr.q].data[i];
    var v0, v1 := s.vComp[pr.p0].data[i], s.vComp[pr.q].data[i];
    LerpBetween(u0, u1, pr);
    LerpBetween(v0, v1, pr);
    (Lerp(u0, u1, pr), Lerp(v0, v1, pr))
  }

  lemma LerpOfEqual(a: real, pr: Progress)
    requires pr.p2 == 1.0 - pr.p1
    ensures Lerp(a, a, pr) == a
  {
    assert a * pr.p2 + a * pr.p1 == a * (pr.p2 + pr.p1);
  }

  lemma LerpAtZero(a: real, b: real, pr: Progress)
    requires pr.p1 == 0.0 && pr.p2 == 1.0
    ensures Lerp(a, b, pr) == a
  {
  }

  lemma LerpBetween(a: real, b: real, pr: Progress)
    requires 0.0 <= pr.p1 < 1.0 && pr.p2 == 1.0 - pr.p1
    ensures Min(a, b) <= Lerp(a, b, pr) <= Max(a, b)
  {
    var w := pr.p1;
    var d := b - a;
    assert Lerp(a, b, pr) == a + w * d;
    if a <= b {
      FractionOf(w, d);
      assert 0.0 <= w * d <= d;
    } else {
      FractionOf(w, -d);
      assert w * -d == -(w * d);
      assert d <= w * d <= 0.0;
    }
  }

  /** At an exact frame boundary (p1 = 0) the blend is frame p0's stored value. */
  lemma BlendAtFrameBoundary(s: Series, i: nat, t: Time)
    requires i < Cells(s)
    requires ProgressAt(|s.uComp|, t).p1 == 0.0
    ensures var k := ProgressAt(|s.uComp|, t).p0;
      0 <= k < |s.uComp| && BlendAt(s, i, t) == (s.uComp[k].data[i], s.vComp[k].data[i])
  {
    var pr := ProgressAt(|s.uComp|, t);
    LerpAtZero(s.uComp[pr.p0].data[i], s.uComp[pr.q].data[i], pr);
    LerpAtZero(s.vComp[pr.p0].data[i], s.vComp[pr.q].data[i], pr);
  }

  /** At time 0 the blend is the first frame. */
  lemma BlendAtStart(s: Series, i: nat)
    requires i < Cells(s)
    ensures BlendAt(s, i, 0.0) == (s.uComp[0].data[i], s.vComp[0].data[i])
  {
    assert JsRemainder(0.0, STEPS) == 0.0;
    assert ProgressAt(|s.uComp|, 0.0).p == 0.0;
    BlendAtFrameBoundary(s, i, 0.0);
  }

  /** The time line loops: t and t + steps blend the same frames with the same weight. */
  lemma BlendPeriodic(s: Series, i: nat, t: Time)
    requires i < Cells(s)
    ensures BlendAt(s, i, t + STEPS) == BlendAt(s, i, t)
  {
    RemainderOf1440Periodic(t);
    assert ProgressAt(|s.uComp|, t + STEPS) == ProgressAt(|s.uComp|, t);
  }

  /** If every frame holds the same vector at index i, the blend does not depend on t. */
  lemma BlendOfConstantFrames(s: Series, i: nat, t: Time, u: real, v: real)
    requires i < Cells(s)
    requires forall k :: 0 <= k < |s.uComp| ==> s.uComp[k].data[i] == u
    requires forall k :: 0 <= k < |s.uComp| ==> s.vComp[k].data[i] == v
    ensures BlendAt(s, i, t) == (u, v)
  {
    var pr := ProgressAt(|s.uComp|, t);
    LerpOfEqual(u, pr);
    LerpOfEqual(v, pr);
  }

  /**
   * The builder object. `_progress` keeps the last time and its Progress
   * record; every sampler of the grid shares this one memo.
   * `evaluations` counts the recomputations.
   */
  class WindBuilder {
    const series: Series
    var cachedT: Option<Time>
    var cachedV: Progress
    ghost var evaluations: nat

    /** The memo, when set, holds the Progress of the cached time. */
    ghost predicate Valid()
      reads this
    {
      cachedT.Some? ==> cachedV == ProgressAt(|series.uComp|, cachedT.value)
    }

    constructor (s: Series)
      ensures Valid() && series == s && cachedT == None && evaluations == 0
    {
      series := s;
      cachedT := None;
      cachedV := Progress(0.0, 0, 0.0, 1.0, 0);
      evaluations := 0;
    }

    /** `_progress(t)`: recomputes only when t differs from the cached time. */
    method ProgressOf(t: Time) returns (pr: Progress)
      requires Valid()
      modifies this
      ensures Valid() && cachedT == Some(t)
      ensures pr == ProgressAt(|series.uComp|, t)
      ensures old(cachedT) == Some(t) ==> cachedV == old(cachedV)
      ensures evaluations == old(evaluations) + (if old(cachedT) == Some(t) then 0 else 1)
    {
      if cachedT != Some(t) {
        cachedT := Some(t);
        cachedV := ProgressAt(|series.uComp|, t);
        evaluations := evaluations + 1;
      }
      pr := cachedV;
    }

    /** `_data(i, t)`: the blended (u, v) at flat index i. */
    method Data(i: nat, t: Time) returns (u: real, v: real)
      requires Valid() && i < Cells(series)
      modifies this
      ensures Valid() && cachedT == Some(t)
      ensures (u, v) == BlendAt(series, i, t)
      ensures evaluations == old(evaluations) + (if old(cachedT) == Some(t) then 0 else 1)
    {
      var pr := ProgressOf(t);
      u := Lerp(series.uComp[pr.p0].data[i], series.uComp[pr.q].data[i], pr);
      v := Lerp(series.vComp[pr.p0].data[i], series.vComp[pr.q].data[i], pr);
    }
  }
}
