/**
 * The projection side of windy.js as the simulation core sees it. Mercator
 * `invert` and the finite-difference `distortion` tensor are transcendental
 * floating-point code; the model takes them as inputs (uninterpreted
 * functions) and keeps `distort`, which applies the tensor to a scaled wind
 * vector and passes "no wind" through as NULL_WIND_VECTOR.
 */
module Projection {
  import opened JsNumbers

  /** A wind vector [u, v, magnitude]. */
  datatype Vector = Vector(u: real, v: real, m: real)

  /** invert(x, y): longitude and latitude in degrees, and whether the longitude is finite. */
  datatype Coord = Coord(lon: real, lat: real, lonFinite: bool)

  /** distortion(λ, φ, x, y): [d0, d1, d2, d3], mapping (u, v) to (d0*u + d2*v, d1*u + d3*v). */
  datatype Tensor = Tensor(d0: real, d1: real, d2: real, d3: real)

  /**
   * The inputs the core cannot compute itself: invert and distortion for
   * the current map extent, and the Euclidean norm that Math.sqrt gives.
   */
  datatype Env = Env(
    invert: (int, int) -> Coord,
    distortion: (real, real, int, int) -> Tensor,
    norm: Norm)

  /**
   * distort: a missing wind becomes NULL_WIND_VECTOR (None); otherwise the
   * scaled (u, v) goes through the tensor and entry [2] is left as it was,
   * so the magnitude is that of the undistorted vector.
   */
  function Distort(env: Env, lon: real, lat: real, x: int, y: int, scale: real, wind: Option<Vector>)
    : (r: Option<Vector>)
    ensures r.Some? <==> wind.Some?
    ensures r.Some? ==> r.value.m == wind.value.m
  {
    match wind
    case None => None
    case Some(w) =>
      var u := w.u * scale;
      var v := w.v * scale;
      var d := env.distortion(lon, lat, x, y);
      Some(Vector(d.d0 * u + d.d2 * v, d.d1 * u + d.d3 * v, w.m))
  }

  /** Where the tensor is the identity, distort only scales the vector. */
  lemma DistortIdentity(env: Env, lon: real, lat: real, x: int, y: int, scale: real, w: Vector)
    requires env.distortion(lon, lat, x, y) == Tensor(1.0, 0.0, 0.0, 1.0)
    ensures Distort(env, lon, lat, x, y, scale, Some(w)) == Some(Vector(w.u * scale, w.v * scale, w.m))
  {
    var u, v := w.u * scale, w.v * scale;
    var d := env.distortion(lon, lat, x, y);
    assert d.d0 == 1.0 && d.d1 == 0.0 && d.d2 == 0.0 && d.d3 == 1.0;
    var r := Distort(env, lon, lat, x, y, scale, Some(w));
    assert r.value.u == d.d0 * u + d.d2 * v == u;
    assert r.value.v == d.d1 * u + d.d3 * v == v;
  }

  /** A calm wind stays calm under any tensor. */
  lemma DistortCalm(env: Env, lon: real, lat: real, x: int, y: int, scale: real, m: real)
    ensures Distort(env, lon, lat, x, y, scale, Some(Vector(0.0, 0.0, m))) == Some(Vector(0.0, 0.0, m))
  {
    var d := env.distortion(lon, lat, x, y);
    var zero := 0.0 * scale;
    assert zero == 0.0;
    assert d.d0 * zero + d.d2 * zero == 0.0;
    assert d.d1 * zero + d.d3 * zero == 0.0;
  }
}
