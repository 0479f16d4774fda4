/**
 * buildGrid and its `interpolate`: the samplers laid out row by row (with
 * the first column repeated when the grid wraps around the globe), and the
 * bilinear interpolation between the four grid points around a position.
 */
module Grid {
  import opened JsNumbers
  import opened Forecast
  import opened TimeBlend
  import opened Projection

  /** `builder.data(index)`: the `_data` of the builder bound to one flat grid index. */
  datatype Sampler = Sampler(index: nat)

  /**
   * `Math.floor(ni * Δλ) >= 360`: the grid spans the whole globe in
   * longitude, which needs at least one column and a positive spacing.
   */
  predicate IsContinuous(h: Header)
    ensures IsContinuous(h) ==> h.nx > 0 && h.dx > 0.0
  {
    SpanNeedsColumns(h.nx, h.dx);
    Floor(h.nx as real * h.dx) >= 360
  }

  /** A positive span n*d needs a positive count and a positive spacing. */
  lemma SpanNeedsColumns(n: nat, d: real)
    ensures n as real * d > 0.0 ==> n > 0 && d > 0.0
  {
    if d <= 0.0 {
      MulLeq(d, 0.0, n as real);
    }
  }

  /** Number of samplers in each grid row. */
  function RowLength(h: Header): nat {
    if IsContinuous(h) then h.nx + 1 else h.nx
  }

  /** Every sampler of the grid indexes a sample every frame holds. */
  predicate Fits(s: Series, grid: seq<seq<Sampler>>) {
    forall j, i :: 0 <= j < |grid| && 0 <= i < |grid[j]| ==> grid[j][i].index < Cells(s)
  }

  lemma FlatIndexInRange(j: nat, i: nat, nx: nat, ny: nat)
    requires j < ny && i < nx
    ensures j * nx + i < nx * ny
  {
    assert (j + 1) * nx <= ny * nx by {
      MulMonotone(j + 1, ny, nx);
    }
  }

  lemma MulMonotone(a: nat, b: nat, n: nat)
    requires a <= b
    ensures a * n <= b * n
  {
  }

  /** Row j of the grid: flat indices j*nx .. j*nx + nx - 1, then j*nx again when the grid wraps. */
  function RowSpec(h: Header, j: nat): seq<Sampler> {
    seq(h.nx, c requires 0 <= c => Sampler(j * h.nx + c)) + (if IsContinuous(h) then [Sampler(j * h.nx)] else [])
  }

  /** The grid buildGrid lays out: `ny` rows, row j being RowSpec of j. */
  function GridSpec(s: Series): seq<seq<Sampler>> {
    seq(GridHeader(s).ny, j requires 0 <= j => RowSpec(GridHeader(s), j))
  }

  /**
   * buildGrid: `ny` rows; entry (j, i) samples flat index j*nx + i; when the
   * grid is continuous each row gets one more entry, a copy of its first.
   */
  method BuildGrid(s: Series) returns (grid: seq<seq<Sampler>>)
    ensures grid == GridSpec(s)
    ensures |grid| == GridHeader(s).ny
    ensures forall j :: 0 <= j < |grid| ==> |grid[j]| == RowLength(GridHeader(s))
    ensures forall j, i :: 0 <= j < |grid| && 0 <= i < GridHeader(s).nx <= |grid[j]| ==>
              grid[j][i] == Sampler(j * GridHeader(s).nx + i)
    ensures IsContinuous(GridHeader(s)) ==>
              forall j :: 0 <= j < |grid| ==> 0 < GridHeader(s).nx < |grid[j]| && grid[j][GridHeader(s).nx] == grid[j][0]
    ensures Fits(s, grid)
  {
    var nj := GridHeader(s).ny;
    grid := [];
    var j := 0;
    while j < nj
      invariant 0 <= j <= nj && |grid| == j
      invariant forall r :: 0 <= r < j ==> RowShape(s, r, grid[r])
      invariant forall r :: 0 <= r < j ==> grid[r] == RowSpec(GridHeader(s), r)
    {
      var row := BuildRow(s, j);
      grid := grid + [row];
      j := j + 1;
    }
    assert grid == GridSpec(s);
    forall r, c | 0 <= r < |grid| && 0 <= c < |grid[r]|
      ensures grid[r][c].index < Cells(s)
    {
      assert RowShape(s, r, grid[r]);
    }
  }

  /** What buildGrid puts in row j. */
  ghost predicate RowShape(s: Series, j: nat, row: seq<Sampler>) {
    var h := GridHeader(s);
    && |row| == RowLength(h)
    && (forall c :: 0 <= c < h.nx <= |row| ==> row[c] == Sampler(j * h.nx + c))
    && (IsContinuous(h) ==> 0 < h.nx < |row| && row[h.nx] == row[0])
    && (forall c :: 0 <= c < |row| ==> row[c].index < Cells(s))
  }

  /** The inner loop of buildGrid: one row of samplers, plus the wrap-around copy. */
  method BuildRow(s: Series, j: nat) returns (row: seq<Sampler>)
    requires j < GridHeader(s).ny
    ensures row == RowSpec(GridHeader(s), j)
    ensures RowShape(s, j, row)
  {
    var header := GridHeader(s);
    var ni := header.nx;
    var isContinuous := Floor(ni as real * header.dx) >= 360;
    assert isContinuous ==> ni > 0;
    row := [];
    var i := 0;
    while i < ni
      invariant 0 <= i <= ni && |row| == i
      invariant row == seq(i, c requires 0 <= c => Sampler(j * ni + c))
      invariant forall c :: 0 <= c < i ==> row[c].index < Cells(s)
    {
      FlatIndexInRange(j, i, ni, header.ny);
      row := row + [Sampler(j * ni + i)];
      i := i + 1;
    }
    assert forall c :: 0 <= c < ni ==> row[c] == Sampler(j * ni + c);
    if isContinuous {
      row := row + [row[0]];
    }
  }

  /** `grid[r]` and then `row[c]`: the sampler there, if any (JavaScript gives `undefined`). */
  function Cell(grid: seq<seq<Sampler>>, r: int, c: int): (cell: Option<Sampler>)
    ensures cell.Some? <==> 0 <= r < |grid| && 0 <= c < |grid[r]|
    ensures cell.Some? ==> cell.value == grid[r][c]
  {
    if 0 <= r < |grid| && 0 <= c < |grid[r]| then Some(grid[r][c]) else None
  }

  /** Calling a grid sampler `row[c](t, buf)`. */
  function SampleAt(s: Series, sampler: Sampler, t: Time): (real, real)
    requires sampler.index < Cells(s)
  {
    BlendAt(s, sampler.index, t)
  }

  /**
   * bilinearInterpolateVector's four weights rx*ry, x*ry, rx*y, x*y. They
   * always sum to 1, and for offsets in [0, 1] none is negative, so the
   * result is a convex blend of the corners.
   */
  function Weights(x: real, y: real): (w: (real, real, real, real))
    ensures w.0 + w.1 + w.2 + w.3 == 1.0
    ensures 0.0 <= x <= 1.0 && 0.0 <= y <= 1.0 ==> w.0 >= 0.0 && w.1 >= 0.0 && w.2 >= 0.0 && w.3 >= 0.0
  {
    var rx := 1.0 - x;
    var ry := 1.0 - y;
    assert rx * ry + x * ry == (rx + x) * ry;
    assert rx * y + x * y == (rx + x) * y;
    var w := (rx * ry, x * ry, rx * y, x * y);
    if 0.0 <= x <= 1.0 && 0.0 <= y <= 1.0 then
      MulNonNegative(rx, ry);
      MulNonNegative(x, ry);
      MulNonNegative(rx, y);
      MulNonNegative(x, y);
      w
    else
      w
  }

  lemma MulNonNegative(a: real, b: real)
    requires a >= 0.0 && b >= 0.0
    ensures a * b >= 0.0
  {
  }

  /** Weighted sum of one component of the four corner samples. */
  function Blend4(w: (real, real, real, real), a: real, b: real, c: real, d: real): real {
    a * w.0 + b * w.1 + c * w.2 + d * w.3
  }

  /** bilinearInterpolateVector(x, y, g00, g10, g01, g11): [u, v, sqrt(u*u + v*v)]. */
  function Bilinear(norm: Norm, x: real, y: real, g00: (real, real), g10: (real, real),
                    g01: (real, real), g11: (real, real)): (r: Vector)
    ensures var w := Weights(x, y);
      r.u == Blend4(w, g00.0, g10.0, g01.0, g11.0) && r.v == Blend4(w, g00.1, g10.1, g01.1, g11.1)
    ensures r.m == norm(r.u, r.v) && r.m >= 0.0
  {
    var w := Weights(x, y);
    var u := Blend4(w, g00.0, g10.0, g01.0, g11.0);
    var v := Blend4(w, g00.1, g10.1, g01.1, g11.1);
    Vector(u, v, norm(u, v))
  }

  /** At offsets (0, 0) the interpolation is the corner g00 itself. */
  lemma BilinearAtCorner(norm: Norm, g00: (real, real), g10: (real, real), g01: (real, real), g11: (real, real))
    ensures Bilinear(norm, 0.0, 0.0, g00, g10, g01, g11) == Vector(g00.0, g00.1, norm(g00.0, g00.1))
  {
    assert Weights(0.0, 0.0) == (1.0, 0.0, 0.0, 0.0);
  }

  /** Four equal corners interpolate to that vector wherever the offsets are. */
  lemma BilinearOfEqualCorners(norm: Norm, x: real, y: real, g: (real, real))
    ensures Bilinear(norm, x, y, g, g, g, g) == Vector(g.0, g.1, norm(g.0, g.1))
  {
    var w := Weights(x, y);
    var sum := w.0 + w.1 + w.2 + w.3;
    assert sum == 1.0;
    assert Blend4(w, g.0, g.0, g.0, g.0) == g.0 * sum == g.0;
    assert Blend4(w, g.1, g.1, g.1, g.1) == g.1 * sum == g.1;
  }

  /**
   * `floorMod(λ - λ0, 360) / Δλ`: the fractional column of a longitude,
   * which for a positive spacing lies in [0, 360/Δλ): the longitude is
   * first wrapped into one turn east of λ0.
   */
  function ColumnIndex(h: Header, lon: real): (i: real)
    requires h.dx != 0.0
    ensures i * h.dx == FloorMod(lon - h.lo1, 360.0)
    ensures h.dx > 0.0 ==> 0.0 <= i < 360.0 / h.dx
  {
    var m := FloorMod(lon - h.lo1, 360.0);
    if h.dx > 0.0 then
      DivBounds(m, 360.0, h.dx);
      m / h.dx
    else
      m / h.dx
  }

  /** Division by a positive number keeps a value in [0, n) inside [0, n/d). */
  lemma DivBounds(m: real, n: real, d: real)
    requires 0.0 <= m < n && d > 0.0
    ensures 0.0 <= m / d < n / d
  {
    MulLt(m / d, n / d, d);
  }

  /** `(φ0 - φ) / Δφ`: the fractional row of a latitude, counted southward from φ0 in steps of Δφ. */
  function RowIndex(h: Header, lat: real): (j: real)
    requires h.dy != 0.0
    ensures j * h.dy == h.la1 - lat
  {
    (h.la1 - lat) / h.dy
  }

  /**
   * The lookup and blend of `interpolate` once the fractional indices are
   * known: the four samplers (fj,fi), (fj,ci), (cj,fi), (cj,ci) must all be
   * present, or the result is null.
   */
  function InterpolateAt(s: Series, grid: seq<seq<Sampler>>, norm: Norm, i: real, j: real, t: Time)
    : (r: Option<Vector>)
    requires Fits(s, grid)
    ensures r.Some? ==> r.value.m >= 0.0
  {
    var fi := Floor(i);
    var ci := fi + 1;
    var fj := Floor(j);
    var cj := fj + 1;
    var c00, c10, c01, c11 := Cell(grid, fj, fi), Cell(grid, fj, ci), Cell(grid, cj, fi), Cell(grid, cj, ci);
    if c00.Some? && c10.Some? && c01.Some? && c11.Some? then
      Some(Bilinear(norm, i - fi as real, j - fj as real,
                    SampleAt(s, c00.value, t), SampleAt(s, c10.value, t),
                    SampleAt(s, c01.value, t), SampleAt(s, c11.value, t)))
    else
      None
  }

  /**
   * interpolate(λ, φ, t). A zero grid spacing makes both indices infinite
   * or NaN in JavaScript, which no grid row or column matches, so the
   * result is null.
   */
  function Interpolate(s: Series, grid: seq<seq<Sampler>>, norm: Norm, lon: real, lat: real, t: Time)
    : (r: Option<Vector>)
    requires Fits(s, grid)
    ensures r.Some? ==> r.value.m >= 0.0
  {
    var h := GridHeader(s);
    if h.dx == 0.0 || h.dy == 0.0 then None
    else InterpolateAt(s, grid, norm, ColumnIndex(h, lon), RowIndex(h, lat), t)
  }

  /** Some grid point around (i, j) is missing. */
  predicate CornerMissing(grid: seq<seq<Sampler>>, i: real, j: real) {
    var fi, fj := Floor(i), Floor(j);
    Cell(grid, fj, fi).None? || Cell(grid, fj, fi + 1).None? ||
    Cell(grid, fj + 1, fi).None? || Cell(grid, fj + 1, fi + 1).None?
  }

  /**
   * interpolate is null exactly when the spacing is zero or one of the four
   * surrounding grid points is missing; otherwise it is the bilinear blend
   * of all four, and its magnitude is non-negative.
   */
  lemma InterpolateNullIff(s: Series, grid: seq<seq<Sampler>>, norm: Norm, lon: real, lat: real, t: Time)
    requires Fits(s, grid)
    ensures var h := GridHeader(s);
      Interpolate(s, grid, norm, lon, lat, t).None? <==>
        (h.dx == 0.0 || h.dy == 0.0 || CornerMissing(grid, ColumnIndex(h, lon), RowIndex(h, lat)))
    ensures Interpolate(s, grid, norm, lon, lat, t).Some? ==> Interpolate(s, grid, norm, lon, lat, t).value.m >= 0.0
  {
  }

  /** Longitudes a whole number of turns apart interpolate to the same value. */
  lemma InterpolateWrapsLongitude(s: Series, grid: seq<seq<Sampler>>, norm: Norm, lon: real, lat: real, t: Time, k: int)
    requires Fits(s, grid)
    ensures Interpolate(s, grid, norm, lon + k as real * 360.0, lat, t) == Interpolate(s, grid, norm, lon, lat, t)
  {
    var h := GridHeader(s);
    if h.dx != 0.0 && h.dy != 0.0 {
      assert lon + k as real * 360.0 - h.lo1 == (lon - h.lo1) + k as real * 360.0;
      FloorModPeriodic(lon - h.lo1, k);
      assert ColumnIndex(h, lon + k as real * 360.0) == ColumnIndex(h, lon);
    }
  }

  /**
   * Exactly at a grid point (zero offsets) whose cell and neighbours exist,
   * interpolate returns that grid point's blended sample.
   */
  lemma InterpolateAtGridPoint(s: Series, grid: seq<seq<Sampler>>, norm: Norm, row: int, col: int, t: Time)
    requires Fits(s, grid)
    requires !CornerMissing(grid, col as real, row as real)
    ensures 0 <= row < |grid| && 0 <= col < |grid[row]|
    ensures var g := SampleAt(s, grid[row][col], t);
      InterpolateAt(s, grid, norm, col as real, row as real, t) == Some(Vector(g.0, g.1, norm(g.0, g.1)))
  {
    var g00 := SampleAt(s, grid[row][col], t);
    BilinearAtCorner(norm, g00, SampleAt(s, grid[row][col + 1], t),
                     SampleAt(s, grid[row + 1][col], t), SampleAt(s, grid[row + 1][col + 1], t));
  }
}
