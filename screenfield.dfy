/**
 * The pixel-space field of windy.js: buildBounds, the column table that
 * interpolateField / interpolateColumn fill on every second pixel (each
 * sampler stored for a 2x2 block of pixels), the memo of one `wind_obj`,
 * and createField's `field`, `release` and `randomize`.
 */
module ScreenField {
  import opened JsNumbers
  import opened Settings
  import opened Forecast
  import opened TimeBlend
  import opened Grid
  import opened Projection
  import opened Random

  /** The render rectangle {x, y, xMax, yMax, width, height}. */
  datatype Bounds = Bounds(x: int, y: int, xMax: int, yMax: int, width: nat, height: nat)

  /**
   * buildBounds(bounds, width, height). The source also computes
   * min(ceil(lowerRight.x), width - 1) but returns `xMax: width` instead;
   * no caller reads xMax.
   */
  function BuildBounds(upperLeft: (real, real), lowerRight: (real, real), width: nat, height: nat)
    : (b: Bounds)
    ensures b.xMax == width && b.width == width && b.height == height
    ensures upperLeft.0 - 0.5 < b.x as real <= upperLeft.0 + 0.5
    ensures b.y >= 0 && (upperLeft.1 >= 0.0 ==> b.y as real <= upperLeft.1 < b.y as real + 1.0)
    ensures upperLeft.1 < 0.0 ==> b.y == 0
    ensures b.yMax <= height - 1
    ensures lowerRight.1 <= (height - 1) as real ==> lowerRight.1 <= b.yMax as real < lowerRight.1 + 1.0
    ensures lowerRight.1 > (height - 1) as real ==> b.yMax == height - 1
  {
    var x := Round(upperLeft.0);
    var y := MaxInt(Floor(upperLeft.1), 0);
    var yMax := MinInt(Ceil(lowerRight.1), height - 1);
    Bounds(x, y, width, yMax, width, height)
  }

  /** Every row the column fill visits, b.y to b.yMax, lies on the canvas. */
  lemma BoundsRowsOnCanvas(upperLeft: (real, real), lowerRight: (real, real), width: nat, height: nat, row: int)
    requires var b := BuildBounds(upperLeft, lowerRight, width, height); b.y <= row <= b.yMax
    ensures 0 <= row < height
  {
  }

  /** The state of one `wind_obj`: the inverted position and the pixel it was made for. */
  datatype Pixel = Pixel(lon: real, lat: real, x: int, y: int)

  /** `new wind_obj(λ, φ, x, y)` for the pixel (x, y). */
  function PixelAt(env: Env, x: int, y: int): Pixel {
    var c := env.invert(x, y);
    Pixel(c.lon, c.lat, x, y)
  }

  /** What the field is built from: the forecast series, its grid and the map projection. */
  datatype Scene = Scene(series: Series, grid: seq<seq<Sampler>>, env: Env)

  type Wind = sc: Scene | Fits(sc.series, sc.grid)
    witness Scene(
      WindSeries([Record(Header(0.0, 0.0, 0.0, 0.0, 0, 0, 2, 2), [])],
                 [Record(Header(0.0, 0.0, 0.0, 0.0, 0, 0, 2, 3), [])]),
      [],
      Env((x: int, y: int) => Coord(0.0, 0.0, false),
          (lon: real, lat: real, x: int, y: int) => Tensor(0.0, 0.0, 0.0, 0.0),
          (u: real, v: real) => 0.0))

  /**
   * What `wind_obj.fn(t)` computes: the grid interpolated at the pixel's
   * longitude and latitude, then distorted with VELOCITY_SCALE.
   */
  function PixelValue(w: Wind, p: Pixel, t: Time): (r: Option<Vector>)
    ensures r.Some? ==> r.value.m >= 0.0
  {
    Distort(w.env, p.lon, p.lat, p.x, p.y, VELOCITY_SCALE,
            Interpolate(w.series, w.grid, w.env.norm, p.lon, p.lat, t))
  }

  /** A pixel has a wind exactly where the grid does, and its magnitude is the undistorted one. */
  lemma PixelValueOfGrid(w: Wind, p: Pixel, t: Time)
    ensures var g := Interpolate(w.series, w.grid, w.env.norm, p.lon, p.lat, t);
      && (PixelValue(w, p, t).Some? <==> g.Some?)
      && (g.Some? ==> PixelValue(w, p, t).value.m == g.value.m >= 0.0)
  {
    InterpolateNullIff(w.series, w.grid, w.env.norm, p.lon, p.lat, t);
  }

  /**
   * One `wind_obj` with its memo: `fn(t)` recomputes only when t differs
   * from memoized_t. `evaluations` counts the recomputations.
   */
  class WindPoint {
    const wind: Wind
    const pixel: Pixel
    var memoT: Option<Time>
    var memoV: Option<Vector>
    ghost var evaluations: nat

    ghost predicate Valid()
      reads this
    {
      memoT.Some? ==> memoV == PixelValue(wind, pixel, memoT.value)
    }

    constructor (wind: Wind, pixel: Pixel)
      ensures Valid() && this.wind == wind && this.pixel == pixel
      ensures memoT == None && evaluations == 0
    {
      this.wind := wind;
      this.pixel := pixel;
      memoT := None;
      memoV := None;
      evaluations := 0;
    }

    /** `fn(t, arr)` */
    method Fn(t: Time) returns (r: Option<Vector>)
      requires Valid()
      modifies this
      ensures Valid() && memoT == Some(t)
      ensures r == PixelValue(wind, pixel, t)
      ensures evaluations == old(evaluations) + (if old(memoT) == Some(t) then 0 else 1)
    {
      if memoT != Some(t) {
        memoT := Some(t);
        memoV := PixelValue(wind, pixel, t);
        evaluations := evaluations + 1;
      }
      r := memoV;
    }
  }

  /** One column of the table: row -> sampler. JavaScript arrays here are sparse. */
  type Column = map<int, Pixel>

  /** The table interpolateField fills: pixel column -> column. */
  type Columns = map<int, Column>

  /** The start of the two-pixel step, from `from`, that covers `k`. */
  function Anchor(from: int, k: int): (a: int)
    ensures k >= from ==> from <= a && (a == k || a == k - 1) && (a - from) % 2 == 0
    ensures k < from ==> a < from
  {
    from + 2 * ((k - from) / 2)
  }

  lemma AnchorOfStep(from: int, k: int)
    requires k >= from && (k - from) % 2 == 0
    ensures Anchor(from, k) == k && Anchor(from, k + 1) == k
  {
  }

  /** Row yy of column x is set once the fill has passed its anchor row, if that row inverts to a finite longitude. */
  predicate StoredBelow(env: Env, from: int, x: int, limit: int, yy: int) {
    from <= yy && Anchor(from, yy) < limit && env.invert(x, Anchor(from, yy)).lonFinite
  }

  /**
   * The column interpolateColumn(x) builds: rows b.y, b.y+2, ... up to
   * b.yMax, each with a finite inverse longitude, stored at its own row and
   * the one below.
   */
  function ColumnSpec(env: Env, b: Bounds, x: int): (c: Column)
    ensures forall yy :: yy in c ==> b.y <= yy <= b.yMax + 1 && c[yy].x == x
    ensures forall yy :: b.y <= yy <= b.yMax && env.invert(x, Anchor(b.y, yy)).lonFinite ==> yy in c
  {
    map yy | b.y <= yy <= b.yMax + 1 && StoredBelow(env, b.y, x, b.yMax + 1, yy) :: PixelAt(env, x, Anchor(b.y, yy))
  }

  /** The table interpolateField builds: columns b.x, b.x+2, ... below b.width, each stored twice. */
  function FieldSpec(env: Env, b: Bounds): (f: Columns)
    ensures forall xx :: xx in f ==> b.x <= xx <= b.width
    ensures forall xx :: b.x <= xx < b.width ==> xx in f
  {
    map xx | b.x <= xx <= b.width && Anchor(b.x, xx) < b.width :: ColumnSpec(env, b, Anchor(b.x, xx))
  }

  /** The part of column x filled before row y. */
  function ColumnBefore(env: Env, b: Bounds, x: int, y: int): Column {
    map yy | b.y <= yy <= y && StoredBelow(env, b.y, x, y, yy) :: PixelAt(env, x, Anchor(b.y, yy))
  }

  /** One round of the row loop stores row y at y and y + 1 when it inverts to a finite longitude. */
  lemma ColumnBeforeStep(env: Env, b: Bounds, x: int, y: int)
    requires b.y <= y && (y - b.y) % 2 == 0
    ensures ColumnBefore(env, b, x, y + 2) ==
      if env.invert(x, y).lonFinite
      then ColumnBefore(env, b, x, y)[y := PixelAt(env, x, y)][y + 1 := PixelAt(env, x, y)]
      else ColumnBefore(env, b, x, y)
  {
    AnchorOfStep(b.y, y);
    var lhs := ColumnBefore(env, b, x, y + 2);
    var rhs := if env.invert(x, y).lonFinite
      then ColumnBefore(env, b, x, y)[y := PixelAt(env, x, y)][y + 1 := PixelAt(env, x, y)]
      else ColumnBefore(env, b, x, y);
    forall yy
      ensures yy in lhs <==> yy in rhs
      ensures yy in lhs ==> lhs[yy] == rhs[yy]
    {
      if b.y <= yy && yy != y && yy != y + 1 {
        assert Anchor(b.y, yy) < y + 2 <==> Anchor(b.y, yy) < y;
      }
    }
  }

  /** Once y has passed yMax the column is complete. */
  lemma ColumnBeforeEnd(env: Env, b: Bounds, x: int, y: int)
    requires b.y <= y && (y - b.y) % 2 == 0 && b.yMax < y && (y == b.y || y <= b.yMax + 2)
    ensures ColumnBefore(env, b, x, y) == ColumnSpec(env, b, x)
  {
    var lhs, rhs := ColumnBefore(env, b, x, y), ColumnSpec(env, b, x);
    forall yy
      ensures yy in lhs <==> yy in rhs
    {
      if b.y <= yy {
        SameParityGap(b.y, Anchor(b.y, yy), y);
      }
    }
  }

  /** interpolateColumn(x): the `for (y = bounds.y; y <= bounds.yMax; y += 2)` loop. */
  method InterpolateColumn(env: Env, b: Bounds, x: int) returns (column: Column)
    ensures column == ColumnSpec(env, b, x)
  {
    column := map[];
    var y := b.y;
    assert ColumnBefore(env, b, x, y) == map[];
    while y <= b.yMax
      invariant b.y <= y && (y - b.y) % 2 == 0
      invariant y == b.y || y <= b.yMax + 2
      invariant column == ColumnBefore(env, b, x, y)
      decreases b.yMax - y
    {
      ColumnBeforeStep(env, b, x, y);
      var coord := env.invert(x, y);
      if coord.lonFinite {
        var obj := Pixel(coord.lon, coord.lat, x, y);
        column := column[y := obj][y + 1 := obj];
      }
      y := y + 2;
    }
    ColumnBeforeEnd(env, b, x, y);
  }

  /** The part of the table filled before column x: every column below x, stored twice. */
  function FieldBefore(env: Env, b: Bounds, x: int): Columns {
    map xx | b.x <= xx <= x && Anchor(b.x, xx) < x :: ColumnSpec(env, b, Anchor(b.x, xx))
  }

  /** One round of the column loop adds column x at x and x + 1. */
  lemma FieldBeforeStep(env: Env, b: Bounds, x: int)
    requires b.x <= x && (x - b.x) % 2 == 0
    ensures FieldBefore(env, b, x + 2) == FieldBefore(env, b, x)[x := ColumnSpec(env, b, x)][x + 1 := ColumnSpec(env, b, x)]
  {
    AnchorOfStep(b.x, x);
    var lhs, rhs := FieldBefore(env, b, x + 2), FieldBefore(env, b, x)[x := ColumnSpec(env, b, x)][x + 1 := ColumnSpec(env, b, x)];
    forall xx
      ensures xx in lhs <==> xx in rhs
      ensures xx in lhs ==> lhs[xx] == rhs[xx]
    {
      if b.x <= xx && xx != x && xx != x + 1 {
        assert Anchor(b.x, xx) < x + 2 <==> Anchor(b.x, xx) < x;
      }
    }
  }

  /** Two numbers of the same parity as `from` that differ are at least two apart. */
  lemma SameParityGap(from: int, a: int, x: int)
    requires (a - from) % 2 == 0 && (x - from) % 2 == 0
    ensures a < x ==> a <= x - 2
  {
    var p, q := (a - from) / 2, (x - from) / 2;
    assert a == from + 2 * p && x == from + 2 * q;
  }

  /** Once x has passed the bounds' width the fill is the whole table. */
  lemma FieldBeforeEnd(env: Env, b: Bounds, x: int)
    requires b.x <= x && (x - b.x) % 2 == 0 && b.width <= x && (x == b.x || x <= b.width + 1)
    ensures FieldBefore(env, b, x) == FieldSpec(env, b)
  {
    var lhs, rhs := FieldBefore(env, b, x), FieldSpec(env, b);
    forall xx
      ensures xx in lhs <==> xx in rhs
    {
      if b.x <= xx {
        SameParityGap(b.x, Anchor(b.x, xx), x);
      }
    }
  }

  /** interpolateField's column loop, run to completion: `while (x < bounds.width)`, x += 2. */
  method InterpolateField(env: Env, b: Bounds) returns (columns: Columns)
    ensures columns == FieldSpec(env, b)
  {
    columns := map[];
    var x := b.x;
    assert FieldBefore(env, b, x) == map[];
    while x < b.width
      invariant b.x <= x && (x - b.x) % 2 == 0
      invariant x == b.x || x <= b.width + 1
      invariant columns == FieldBefore(env, b, x)
      decreases b.width - x
    {
      FieldBeforeStep(env, b, x);
      var column := InterpolateColumn(env, b, x);
      columns := columns[x := column][x + 1 := column];
      x := x + 2;
    }
    FieldBeforeEnd(env, b, x);
  }

  /** The table entry at the rounded pixel (Math.round of x and of y), if the fill stored one. */
  function Lookup(columns: Columns, x: real, y: real): (r: Option<Pixel>)
    ensures columns == map[] ==> r.None?
  {
    var cx, cy := Round(x), Round(y);
    if cx in columns && cy in columns[cx] then Some(columns[cx][cy]) else None
  }

  /** `field(x, y, t)`: the sampler at the rounded pixel, or NULL_WIND_VECTOR. */
  function FieldAt(w: Wind, columns: Columns, x: real, y: real, t: Time): (r: Option<Vector>)
    ensures r.Some? ==> r.value.m >= 0.0
    ensures Lookup(columns, x, y).None? ==> r.None?
  {
    var p := Lookup(columns, x, y);
    if p.None? then None else PixelValue(w, p.value, t)
  }

  /** Which pixels of the table interpolateField builds hold a sampler, and which sampler. */
  lemma TableEntry(env: Env, b: Bounds, cx: int, cy: int)
    ensures var ax, ay := Anchor(b.x, cx), Anchor(b.y, cy);
      (cx in FieldSpec(env, b) && cy in FieldSpec(env, b)[cx]) <==>
        (b.x <= cx && ax < b.width && b.y <= cy && ay <= b.yMax && env.invert(ax, ay).lonFinite)
    ensures var ax, ay := Anchor(b.x, cx), Anchor(b.y, cy);
      cx in FieldSpec(env, b) && cy in FieldSpec(env, b)[cx] ==> FieldSpec(env, b)[cx][cy] == PixelAt(env, ax, ay)
  {
  }

  /**
   * What the table holds for the pixels whose fill anchor is (ax, ay): the
   * anchor pixel's sampler when the anchor lies inside the fill and
   * inverts to a finite longitude, nothing otherwise.
   */
  function Entry(env: Env, b: Bounds, ax: int, ay: int): Option<Pixel> {
    if b.x <= ax < b.width && b.y <= ay <= b.yMax && env.invert(ax, ay).lonFinite
    then Some(PixelAt(env, ax, ay))
    else None
  }

  /** On the table interpolateField builds, the rounded pixel reads the entry of its anchors. */
  lemma LookupOnTable(env: Env, b: Bounds, x: real, y: real)
    ensures Lookup(FieldSpec(env, b), x, y) == Entry(env, b, Anchor(b.x, Round(x)), Anchor(b.y, Round(y)))
  {
    TableEntry(env, b, Round(x), Round(y));
  }

  /** On that table the field is the anchor pixel's wind, or NULL_WIND_VECTOR outside the fill. */
  lemma FieldOnTable(w: Wind, b: Bounds, x: real, y: real, t: Time)
    ensures var e := Entry(w.env, b, Anchor(b.x, Round(x)), Anchor(b.y, Round(y)));
      FieldAt(w, FieldSpec(w.env, b), x, y, t) == if e.None? then None else PixelValue(w, e.value, t)
  {
    LookupOnTable(w.env, b, x, y);
  }

  /** All four pixels of a 2x2 block whose corner is a fill anchor read the same sampler. */
  lemma LookupSharedByBlock(env: Env, b: Bounds, ax: int, ay: int, dx: int, dy: int)
    requires b.x <= ax < b.width && (ax - b.x) % 2 == 0
    requires b.y <= ay <= b.yMax && (ay - b.y) % 2 == 0
    requires 0 <= dx <= 1 && 0 <= dy <= 1
    ensures Lookup(FieldSpec(env, b), (ax + dx) as real, (ay + dy) as real) ==
            Lookup(FieldSpec(env, b), ax as real, ay as real)
  {
    var cx, cy := ax + dx, ay + dy;
    assert Anchor(b.x, cx) == ax && Anchor(b.y, cy) == ay by {
      AnchorOfStep(b.x, ax);
      AnchorOfStep(b.y, ay);
    }
    RoundOfInteger(cx);
    RoundOfInteger(cy);
    RoundOfInteger(ax);
    RoundOfInteger(ay);
    LookupOnTable(env, b, cx as real, cy as real);
    LookupOnTable(env, b, ax as real, ay as real);
  }

  /** After `release` (columns = []) every lookup is NULL_WIND_VECTOR. */
  lemma FieldOfReleased(w: Wind, x: real, y: real, t: Time)
    ensures FieldAt(w, map[], x, y, t) == None
  {
    assert Lookup(map[], x, y) == None;
  }

  lemma FloorOfFraction(r: Unit, extent: nat)
    ensures 0 <= Floor(r * extent as real)
    ensures extent > 0 ==> Floor(r * extent as real) < extent
    ensures extent == 0 ==> Floor(r * extent as real) == 0
  {
    FractionOf(r, extent as real);
  }

  lemma RoundOfInteger(k: int)
    ensures Round(k as real) == k
  {
  }

  /**
   * One coordinate of randomize: `Math.round(Math.floor(r * extent) + origin)`.
   * A draw lands on [origin, origin + extent - 1], or on origin for an empty extent.
   */
  function AxisDraw(r: Unit, origin: int, extent: nat): (k: int)
    ensures extent > 0 ==> origin <= k <= origin + extent - 1
    ensures extent == 0 ==> k == origin
  {
    var f := Floor(r * extent as real);
    FloorOfFraction(r, extent);
    RoundOfInteger(f + origin);
    assert f as real + origin as real == (f + origin) as real;
    Round(f as real + origin as real)
  }

  /**
   * randomize's position from its two draws, x from the first. It lands on
   * [b.x, b.x + width - 1] x [b.y, b.y + height - 1] (on the origin for an
   * empty extent).
   */
  function RandomPoint(b: Bounds, r1: Unit, r2: Unit): (p: (int, int))
    ensures b.width > 0 ==> b.x <= p.0 <= b.x + b.width - 1
    ensures b.width == 0 ==> p.0 == b.x
    ensures b.height > 0 ==> b.y <= p.1 <= b.y + b.height - 1
    ensures b.height == 0 ==> p.1 == b.y
  {
    (AxisDraw(r1, b.x, b.width), AxisDraw(r2, b.y, b.height))
  }

  /** createField's closure: the column table it owns and the bounds it draws in. */
  class Field {
    const wind: Wind
    const bounds: Bounds
    var columns: Columns

    constructor (wind: Wind, bounds: Bounds, columns: Columns)
      ensures this.wind == wind && this.bounds == bounds && this.columns == columns
    {
      this.wind := wind;
      this.bounds := bounds;
      this.columns := columns;
    }

    /** field.release: `columns = []`. */
    method Release()
      modifies this
      ensures columns == map[]
    {
      columns := map[];
    }

    /**
     * field.randomize(o): two draws, x first. The retry test
     * `safetyNet++ < 0` is false the first time, so there is no second
     * attempt whatever the field holds there.
     */
    method Randomize(rng: Rng) returns (x: int, y: int)
      modifies rng
      ensures rng.drawn == old(rng.drawn) + 2
      ensures (x, y) == RandomPoint(bounds, rng.stream(old(rng.drawn)), rng.stream(old(rng.drawn) + 1))
    {
      var r1 := rng.Next();
      x := AxisDraw(r1, bounds.x, bounds.width);
      var r2 := rng.Next();
      y := AxisDraw(r2, bounds.y, bounds.height);
    }
  }
}
