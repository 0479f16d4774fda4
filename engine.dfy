/**
 * The particle engine of `animate`: indexFor, the respawn and one
 * particle's step in `evolve`, the whole backwards sweep over the
 * population, and the population resetParticles builds.
 */
module Engine {
  import opened JsNumbers
  import opened Settings
  import opened Projection
  import opened ScreenField

  /**
   * colorStyles.indexFor(m): floor(min(m, maxWind) / maxWind * (length - 1)).
   * For m >= 0 it is a valid bucket, and every m at or above
   * MAX_WIND_INTENSITY maps to the last bucket.
   */
  function IndexFor(m: real): (k: int)
    ensures m >= 0.0 ==> 0 <= k <= BUCKET_COUNT - 1
    ensures m >= MAX_WIND_INTENSITY ==> k == BUCKET_COUNT - 1
  {
    var c := Min(m, MAX_WIND_INTENSITY);
    assert m >= 0.0 ==> 0.0 <= c / MAX_WIND_INTENSITY * (BUCKET_COUNT - 1) as real <= (BUCKET_COUNT - 1) as real;
    assert m >= MAX_WIND_INTENSITY ==> c == MAX_WIND_INTENSITY;
    Floor(c / MAX_WIND_INTENSITY * (BUCKET_COUNT - 1) as real)
  }

  /** A stronger wind never gets a lower bucket. */
  lemma IndexForMonotone(m1: real, m2: real)
    requires m1 <= m2
    ensures IndexFor(m1) <= IndexFor(m2)
  {
    var c1, c2 := Min(m1, MAX_WIND_INTENSITY), Min(m2, MAX_WIND_INTENSITY);
    var steps := (BUCKET_COUNT - 1) as real;
    assert c1 <= c2;
    assert c1 / MAX_WIND_INTENSITY * steps <= c2 / MAX_WIND_INTENSITY * steps;
    FloorMonotone(c1 / MAX_WIND_INTENSITY * steps, c2 / MAX_WIND_INTENSITY * steps);
  }

  /** A particle {x, y, xt, yt, age}; xt and yt are undefined until a visible step sets them. */
  datatype Particle = Particle(x: real, y: real, xt: Option<real>, yt: Option<real>, age: int)

  /** Everything one tick reads: the field, its current table, its bounds, the draws and the frame time. */
  datatype Stage = Stage(wind: Wind, columns: Columns, bounds: Bounds, stream: nat -> Unit, t: Time)

  /** `field.randomize(particle).age = 0` with randomize's two draws. */
  function Respawn(b: Bounds, p: Particle, r1: Unit, r2: Unit): (q: Particle)
    ensures q.age == 0 && q.xt == p.xt && q.yt == p.yt
    ensures (b.width > 0 ==> b.x as real <= q.x <= (b.x + b.width - 1) as real)
    ensures (b.height > 0 ==> b.y as real <= q.y <= (b.y + b.height - 1) as real)
  {
    var pos := RandomPoint(b, r1, r2);
    p.(x := pos.0 as real, y := pos.1 as real, age := 0)
  }

  /** The three ways a particle's step can end. */
  datatype Fate = Escaped | Visible(bucket: nat) | Hidden

  /**
   * The body of evolve's loop after the respawn test: query the field at
   * (x, y); a null magnitude sets age to MAX_PARTICLE_AGE; otherwise a
   * visible target sets xt/yt and picks the bucket of the (undistorted)
   * magnitude, and an invisible one moves x/y there. Age then grows by one.
   */
  function Advance(sg: Stage, p: Particle): (r: (Particle, Fate))
    ensures r.1.Visible? ==> r.1.bucket < BUCKET_COUNT
  {
    var v := FieldAt(sg.wind, sg.columns, p.x, p.y, sg.t);
    if v.None? then
      var q := p.(age := MAX_PARTICLE_AGE);
      (q.(age := q.age + 1), Escaped)
    else
      var xt := p.x + v.value.u;
      var yt := p.y + v.value.v;
      if FieldAt(sg.wind, sg.columns, xt, yt, sg.t).Some? then
        var q := p.(xt := Some(xt), yt := Some(yt));
        (q.(age := q.age + 1), Visible(IndexFor(v.value.m)))
      else
        var q := p.(x := xt, y := yt);
        (q.(age := q.age + 1), Hidden)
  }

  /** Whether the respawn test fires for p. */
  predicate Expired(p: Particle) {
    p.age >= MAX_PARTICLE_AGE
  }

  /**
   * One iteration of evolve's loop with the draw counter at d: the new
   * particle, its fate, the new counter. Exactly an expired particle takes
   * two draws, and a visible fate names one of the buckets.
   */
  function StepAt(sg: Stage, p: Particle, d: nat): (r: (Particle, Fate, nat))
    ensures r.2 == d + (if Expired(p) then 2 else 0)
    ensures r.1.Visible? ==> r.1.bucket < BUCKET_COUNT
  {
    if Expired(p) then
      var r := Advance(sg, Respawn(sg.bounds, p, sg.stream(d), sg.stream(d + 1)));
      (r.0, r.1, d + 2)
    else
      var r := Advance(sg, p);
      (r.0, r.1, d)
  }

  /**
   * Advance on its own: an escaped particle ends with age
   * MAX_PARTICLE_AGE + 1; a visible one keeps x/y and records xt/yt and a
   * valid bucket of its magnitude at the query point; a hidden one moves
   * to (xt, yt) without touching xt/yt; otherwise age grows by exactly one.
   */
  lemma AdvanceCases(sg: Stage, p: Particle)
    ensures var (q, fate) := Advance(sg, p);
      var v := FieldAt(sg.wind, sg.columns, p.x, p.y, sg.t);
      && (fate == Escaped <==> v.None?)
      && (fate == Escaped ==> q == p.(age := MAX_PARTICLE_AGE + 1))
      && (fate.Visible? ==>
            (&& v.Some? && fate.bucket == IndexFor(v.value.m) && fate.bucket < BUCKET_COUNT
             && q == p.(xt := Some(p.x + v.value.u), yt := Some(p.y + v.value.v), age := p.age + 1)
             && FieldAt(sg.wind, sg.columns, p.x + v.value.u, p.y + v.value.v, sg.t).Some?))
      && (fate == Hidden ==>
            (&& v.Some?
             && q == p.(x := p.x + v.value.u, y := p.y + v.value.v, age := p.age + 1)
             && FieldAt(sg.wind, sg.columns, p.x + v.value.u, p.y + v.value.v, sg.t).None?))
  {
    AdvanceEscaped(sg, p);
    AdvanceVisible(sg, p);
    AdvanceHidden(sg, p);
  }

  /** The escaped case of AdvanceCases. */
  lemma AdvanceEscaped(sg: Stage, p: Particle)
    ensures var (q, fate) := Advance(sg, p);
      var v := FieldAt(sg.wind, sg.columns, p.x, p.y, sg.t);
      && (fate == Escaped <==> v.None?)
      && (fate == Escaped ==> q == p.(age := MAX_PARTICLE_AGE + 1))
  {
  }

  /** The visible case of AdvanceCases. */
  lemma AdvanceVisible(sg: Stage, p: Particle)
    ensures var (q, fate) := Advance(sg, p);
      var v := FieldAt(sg.wind, sg.columns, p.x, p.y, sg.t);
      fate.Visible? ==>
        (&& v.Some? && fate.bucket == IndexFor(v.value.m) && fate.bucket < BUCKET_COUNT
         && q == p.(xt := Some(p.x + v.value.u), yt := Some(p.y + v.value.v), age := p.age + 1)
         && FieldAt(sg.wind, sg.columns, p.x + v.value.u, p.y + v.value.v, sg.t).Some?)
  {
  }

  /** The hidden case of AdvanceCases. */
  lemma AdvanceHidden(sg: Stage, p: Particle)
    ensures var (q, fate) := Advance(sg, p);
      var v := FieldAt(sg.wind, sg.columns, p.x, p.y, sg.t);
      fate == Hidden ==>
        (&& v.Some?
         && q == p.(x := p.x + v.value.u, y := p.y + v.value.v, age := p.age + 1)
         && FieldAt(sg.wind, sg.columns, p.x + v.value.u, p.y + v.value.v, sg.t).None?)
  {
  }

  /**
   * The lifecycle of one particle in a tick: an expired particle is
   * respawned (two draws, age 0) before it advances; any other advances
   * as it is, with no draw.
   */
  lemma StepLifecycle(sg: Stage, p: Particle, d: nat)
    ensures var (q, fate, d') := StepAt(sg, p, d);
      var start := if Expired(p) then Respawn(sg.bounds, p, sg.stream(d), sg.stream(d + 1)) else p;
      && d' == (if Expired(p) then d + 2 else d)
      && (q, fate) == Advance(sg, start)
      && (Expired(p) ==> start.age == 0)
  {
  }

  /** A particle whose age is in [0, MAX_PARTICLE_AGE + 1] ends the step with age in [1, MAX_PARTICLE_AGE + 1]. */
  lemma StepAgeBounds(sg: Stage, p: Particle, d: nat)
    requires 0 <= p.age <= MAX_PARTICLE_AGE + 1
    ensures 1 <= StepAt(sg, p, d).0.age <= MAX_PARTICLE_AGE + 1
  {
    var start := if Expired(p) then Respawn(sg.bounds, p, sg.stream(d), sg.stream(d + 1)) else p;
    AdvanceCases(sg, start);
  }

  /** The state evolve's loop works on: particles, buckets (particle indices) and the draw counter. */
  datatype Tick = Tick(particles: seq<Particle>, buckets: seq<seq<nat>>, drawn: nat)

  /** Pushes index i onto the bucket its fate names. */
  function Push(buckets: seq<seq<nat>>, fate: Fate, i: nat): (r: seq<seq<nat>>)
    requires |buckets| == BUCKET_COUNT
    ensures |r| == BUCKET_COUNT
  {
    if fate.Visible? && fate.bucket < BUCKET_COUNT then buckets[fate.bucket := buckets[fate.bucket] + [i]]
    else buckets
  }

  /** One iteration of evolve's loop as a value: particle and draw counter to new particle, fate and counter. */
  type StepFn = (Particle, nat) -> (Particle, Fate, nat)

  /** The loop body of a tick on stage sg. */
  function StepOf(sg: Stage): StepFn {
    (p: Particle, d: nat) => StepAt(sg, p, d)
  }

  /** The step takes two draws exactly when the particle has expired. */
  ghost predicate CountsDraws(step: StepFn) {
    forall p: Particle, d: nat :: step(p, d).2 == d + (if Expired(p) then 2 else 0)
  }

  /** The step takes an age in [0, MAX_PARTICLE_AGE + 1] to one in [1, MAX_PARTICLE_AGE + 1]. */
  ghost predicate KeepsAges(step: StepFn) {
    forall p: Particle, d: nat :: 0 <= p.age <= MAX_PARTICLE_AGE + 1 ==> 1 <= step(p, d).0.age <= MAX_PARTICLE_AGE + 1
  }

  lemma StageStep(sg: Stage)
    ensures CountsDraws(StepOf(sg)) && KeepsAges(StepOf(sg))
  {
    forall p: Particle, d: nat
      ensures StepOf(sg)(p, d).2 == d + (if Expired(p) then 2 else 0)
    {
      StepLifecycle(sg, p, d);
    }
    forall p: Particle, d: nat | 0 <= p.age <= MAX_PARTICLE_AGE + 1
      ensures 1 <= StepOf(sg)(p, d).0.age <= MAX_PARTICLE_AGE + 1
    {
      StepAgeBounds(sg, p, d);
    }
  }

  /**
   * `for (i = particles.length - 1; i > 0; i--)` from index i down. Index 0
   * and every index above i are never visited.
   */
  function Sweep(step: StepFn, st: Tick, i: int): (r: Tick)
    requires i < |st.particles| && |st.buckets| == BUCKET_COUNT
    ensures |r.particles| == |st.particles| && |r.buckets| == BUCKET_COUNT
    ensures forall j :: 0 <= j < |st.particles| && (j == 0 || j > i) ==> r.particles[j] == st.particles[j]
    decreases i
  {
    if i <= 0 then st
    else
      var (q, fate, d) := step(st.particles[i], st.drawn);
      Sweep(step, Tick(st.particles[i := q], Push(st.buckets, fate, i), d), i - 1)
  }

  /** The state after the loop body has run at index i. */
  function After(step: StepFn, st: Tick, i: int): (r: Tick)
    requires 0 < i < |st.particles| && |st.buckets| == BUCKET_COUNT
    ensures |r.particles| == |st.particles| && |r.buckets| == BUCKET_COUNT
  {
    var out := step(st.particles[i], st.drawn);
    Tick(st.particles[i := out.0], Push(st.buckets, out.1, i), out.2)
  }

  lemma SweepUnfold(step: StepFn, st: Tick, i: int)
    requires 0 < i < |st.particles| && |st.buckets| == BUCKET_COUNT
    ensures Sweep(step, st, i) == Sweep(step, After(step, st, i), i - 1)
  {
  }

  /** Number of expired particles among indices lo..hi. */
  function Respawns(ps: seq<Particle>, lo: int, hi: int): nat
    requires hi < |ps|
    decreases hi - lo
  {
    if hi < lo || hi < 0 then 0 else Respawns(ps, lo, hi - 1) + (if Expired(ps[hi]) then 1 else 0)
  }

  lemma {:induction false} RespawnsFrame(ps: seq<Particle>, qs: seq<Particle>, lo: int, hi: int)
    requires hi < |ps| == |qs|
    requires forall j :: lo <= j <= hi && 0 <= j ==> ps[j] == qs[j]
    ensures Respawns(ps, lo, hi) == Respawns(qs, lo, hi)
    decreases hi - lo
  {
    if !(hi < lo || hi < 0) {
      RespawnsFrame(ps, qs, lo, hi - 1);
    }
  }

  /** The draw counter at which index j is stepped, in a sweep that started at index i with counter d. */
  function DrawsBefore(ps: seq<Particle>, d: nat, j: int, i: int): nat
    requires i < |ps|
  {
    d + 2 * Respawns(ps, j + 1, i)
  }

  /** The sweep from index i takes two draws per expired particle among indices 1..i. */
  lemma {:induction false} SweepDraws(step: StepFn, st: Tick, i: int)
    requires CountsDraws(step)
    requires i < |st.particles| && |st.buckets| == BUCKET_COUNT
    ensures Sweep(step, st, i).drawn == st.drawn + 2 * Respawns(st.particles, 1, i)
    decreases i
  {
    if i > 0 {
      var st' := After(step, st, i);
      SweepUnfold(step, st, i);
      SweepDraws(step, st', i - 1);
      RespawnsFrame(st.particles, st'.particles, 1, i - 1);
    }
  }

  /** What index j below i sees: one index fewer above it, and the counter after index i. */
  lemma DrawsShift(step: StepFn, st: Tick, j: int, i: int)
    requires CountsDraws(step)
    requires 1 <= j < i < |st.particles| && |st.buckets| == BUCKET_COUNT
    ensures After(step, st, i).particles[j] == st.particles[j]
    ensures DrawsBefore(st.particles, st.drawn, j, i) ==
            DrawsBefore(After(step, st, i).particles, After(step, st, i).drawn, j, i - 1)
  {
    RespawnsFrame(st.particles, After(step, st, i).particles, j + 1, i - 1);
  }

  /** Each index j in 1..i becomes its own step, taken at the counter the expired particles above it leave. */
  lemma {:induction false} SweepParticles(step: StepFn, st: Tick, i: int)
    requires CountsDraws(step)
    requires i < |st.particles| && |st.buckets| == BUCKET_COUNT
    ensures forall j :: 1 <= j <= i ==>
      Sweep(step, st, i).particles[j] == step(st.particles[j], DrawsBefore(st.particles, st.drawn, j, i)).0
    decreases i
  {
    if i > 0 {
      var st' := After(step, st, i);
      SweepUnfold(step, st, i);
      SweepParticles(step, st', i - 1);
      forall j | 1 <= j < i
        ensures st'.particles[j] == st.particles[j]
        ensures DrawsBefore(st.particles, st.drawn, j, i) == DrawsBefore(st'.particles, st'.drawn, j, i - 1)
      {
        DrawsShift(step, st, j, i);
      }
      assert DrawsBefore(st.particles, st.drawn, i, i) == st.drawn;
    }
  }

  /** Index i enters bucket k by the step at i exactly when that step is visible with bucket k. */
  lemma PushMembership(buckets: seq<seq<nat>>, fate: Fate, i: nat, k: int, e: int)
    requires |buckets| == BUCKET_COUNT && 0 <= k < BUCKET_COUNT
    ensures e in Push(buckets, fate, i)[k] <==> e in buckets[k] || (e == i && fate == Visible(k))
  {
  }

  /** After the sweep from index i, e is in bucket k exactly when it was already, or e is in 1..i and its step was visible with bucket k. */
  lemma {:induction false} SweepBuckets(step: StepFn, st: Tick, i: int, k: int, e: int)
    requires CountsDraws(step)
    requires i < |st.particles| && |st.buckets| == BUCKET_COUNT && 0 <= k < BUCKET_COUNT
    ensures e in Sweep(step, st, i).buckets[k] <==>
      e in st.buckets[k] ||
      (1 <= e <= i && step(st.particles[e], DrawsBefore(st.particles, st.drawn, e, i)).1 == Visible(k))
    decreases i
  {
    if i > 0 {
      var st' := After(step, st, i);
      SweepUnfold(step, st, i);
      SweepBuckets(step, st', i - 1, k, e);
      var fate := step(st.particles[i], st.drawn).1;
      assert st'.buckets == Push(st.buckets, fate, i);
      PushMembership(st.buckets, fate, i, k, e);
      if e == i {
        assert DrawsBefore(st.particles, st.drawn, i, i) == st.drawn;
      } else if 1 <= e < i {
        DrawsShift(step, st, e, i);
      }
    }
  }

  /** The entries of s strictly decrease, so no index appears twice. */
  predicate Descending(s: seq<nat>) {
    forall a, b :: 0 <= a < b < |s| ==> s[a] > s[b]
  }

  lemma DescendingAppend(s: seq<nat>, x: nat)
    requires Descending(s)
    requires forall e :: e in s ==> e > x
    ensures Descending(s + [x])
  {
    forall a | 0 <= a < |s|
      ensures s[a] > x
    {
      assert s[a] in s;
    }
  }

  /**
   * Started from buckets whose entries all lie above i, the sweep keeps
   * every bucket strictly decreasing and no index in two buckets.
   */
  lemma {:induction false} SweepBucketsDistinct(step: StepFn, st: Tick, i: int)
    requires i < |st.particles| && |st.buckets| == BUCKET_COUNT
    requires forall k :: 0 <= k < BUCKET_COUNT ==> Descending(st.buckets[k])
    requires forall k: int, e: int :: 0 <= k < BUCKET_COUNT && e in st.buckets[k] ==> e > i
    requires forall k1: int, k2: int, e: int :: 0 <= k1 < k2 < BUCKET_COUNT && e in st.buckets[k1] ==> e !in st.buckets[k2]
    ensures var r := Sweep(step, st, i);
      && (forall k :: 0 <= k < BUCKET_COUNT ==> Descending(r.buckets[k]))
      && (forall k1: int, k2: int, e: int :: 0 <= k1 < k2 < BUCKET_COUNT && e in r.buckets[k1] ==> e !in r.buckets[k2])
    decreases i
  {
    if i > 0 {
      var st' := After(step, st, i);
      var fate := step(st.particles[i], st.drawn).1;
      assert st'.buckets == Push(st.buckets, fate, i);
      forall k | 0 <= k < BUCKET_COUNT
        ensures Descending(st'.buckets[k])
        ensures forall e :: e in st'.buckets[k] ==> e > i - 1
        ensures forall e :: e in st'.buckets[k] <==> e in st.buckets[k] || (e == i && fate == Visible(k))
      {
        forall e
          ensures e in st'.buckets[k] <==> e in st.buckets[k] || (e == i && fate == Visible(k))
        {
          PushMembership(st.buckets, fate, i, k, e);
        }
        if fate == Visible(k) {
          assert st'.buckets[k] == st.buckets[k] + [i];
          DescendingAppend(st.buckets[k], i);
        }
      }
      SweepUnfold(step, st, i);
      SweepBucketsDistinct(step, st', i - 1);
    }
  }

  /** The tick's state once evolve has emptied the buckets: ten empty lists. */
  function EmptyBuckets(): (r: seq<seq<nat>>)
    ensures |r| == BUCKET_COUNT && forall k :: 0 <= k < |r| ==> r[k] == []
  {
    seq(BUCKET_COUNT, _ => [])
  }

  /**
   * A whole sweep of evolve over a population, for any loop body that
   * counts its draws and keeps ages (StageStep shows StepOf does both):
   * index 0 is untouched, every other index takes its own step at a known
   * draw counter, the stepped ages land in [1, MAX_PARTICLE_AGE + 1], and
   * each index sits in at most one bucket, in decreasing order, exactly
   * when its step was visible.
   */
  lemma TickProperties(step: StepFn, ps: seq<Particle>, d: nat)
    requires CountsDraws(step) && KeepsAges(step)
    requires forall j :: 0 <= j < |ps| ==> 0 <= ps[j].age <= MAX_PARTICLE_AGE + 1
    ensures var r := Sweep(step, Tick(ps, EmptyBuckets(), d), |ps| - 1);
      && |r.particles| == |ps|
      && (|ps| > 0 ==> r.particles[0] == ps[0])
      && (forall j :: 1 <= j < |ps| ==> r.particles[j] == step(ps[j], DrawsBefore(ps, d, j, |ps| - 1)).0)
      && (forall j :: 1 <= j < |ps| ==> 1 <= r.particles[j].age <= MAX_PARTICLE_AGE + 1)
      && r.drawn == d + 2 * Respawns(ps, 1, |ps| - 1)
      && (forall k :: 0 <= k < BUCKET_COUNT ==> Descending(r.buckets[k]))
      && (forall k1: int, k2: int, e: int :: 0 <= k1 < k2 < BUCKET_COUNT && e in r.buckets[k1] ==> e !in r.buckets[k2])
  {
    var st := Tick(ps, EmptyBuckets(), d);
    var r := Sweep(step, st, |ps| - 1);
    SweepParticles(step, st, |ps| - 1);
    SweepDraws(step, st, |ps| - 1);
    SweepBucketsDistinct(step, st, |ps| - 1);
    forall j | 1 <= j < |ps|
      ensures 1 <= r.particles[j].age <= MAX_PARTICLE_AGE + 1
    {
      var out := step(ps[j], DrawsBefore(ps, d, j, |ps| - 1));
      assert r.particles[j] == out.0;
      assert 0 <= ps[j].age <= MAX_PARTICLE_AGE + 1;
    }
  }

  /** In a whole sweep, index e lands in bucket k exactly when e is not 0 and its own step is visible with bucket k. */
  lemma TickBucket(step: StepFn, ps: seq<Particle>, d: nat, k: int, e: int)
    requires CountsDraws(step) && 0 <= k < BUCKET_COUNT
    ensures e in Sweep(step, Tick(ps, EmptyBuckets(), d), |ps| - 1).buckets[k] <==>
      1 <= e < |ps| && step(ps[e], DrawsBefore(ps, d, e, |ps| - 1)).1 == Visible(k)
  {
    SweepBuckets(step, Tick(ps, EmptyBuckets(), d), |ps| - 1, k, e);
  }

  /**
   * resetParticles' new particle from draws r0 (age), r1 and r2
   * (randomize): age in [0, MAX_PARTICLE_AGE - 1], no target yet, and a
   * position inside the bounds.
   */
  function Spawn(b: Bounds, r0: Unit, r1: Unit, r2: Unit): (p: Particle)
    ensures 0 <= p.age <= MAX_PARTICLE_AGE - 1 && p.xt.None? && p.yt.None?
    ensures b.width > 0 ==> b.x as real <= p.x <= (b.x + b.width - 1) as real
    ensures b.height > 0 ==> b.y as real <= p.y <= (b.y + b.height - 1) as real
  {
    var pos := RandomPoint(b, r1, r2);
    FloorOfFraction(r0, 50);
    Particle(pos.0 as real, pos.1 as real, None, None, Floor(r0 * MAX_PARTICLE_AGE as real) + 0)
  }

  /** The population resetParticles builds from draw counter d: particle k uses draws d+3k, d+3k+1, d+3k+2. */
  function Population(b: Bounds, stream: nat -> Unit, d: nat, n: nat): (ps: seq<Particle>)
    ensures |ps| == n
  {
    seq(n, k requires 0 <= k < n => Spawn(b, stream(d + 3 * k), stream(d + 3 * k + 1), stream(d + 3 * k + 2)))
  }

  /** One more loop round of resetParticles appends the next spawn. */
  lemma PopulationSnoc(b: Bounds, stream: nat -> Unit, d: nat, n: nat, next: nat, k: nat)
    requires next == n + 1 && k == d + 3 * n
    ensures Population(b, stream, d, next)
         == Population(b, stream, d, n) + [Spawn(b, stream(k), stream(k + 1), stream(k + 2))]
  {
    var ps, qs := Population(b, stream, d, next), Population(b, stream, d, n);
    assert forall k :: 0 <= k < n ==> ps[k] == qs[k];
  }

  /** Every particle of a fresh population is young, untargeted and inside the bounds. */
  lemma PopulationRanges(b: Bounds, stream: nat -> Unit, d: nat, n: nat)
    ensures var ps := Population(b, stream, d, n);
      forall k :: 0 <= k < n ==>
        && 0 <= ps[k].age <= MAX_PARTICLE_AGE - 1 && ps[k].xt.None?
        && (b.width > 0 ==> b.x as real <= ps[k].x <= (b.x + b.width - 1) as real)
        && (b.height > 0 ==> b.y as real <= ps[k].y <= (b.y + b.height - 1) as real)
  {
  }

  /**
   * particleCount: round(width * height * PARTICLE_MULTIPLIER), times
   * PARTICLE_REDUCTION on a mobile device (which may leave a fraction).
   */
  function ParticleCount(b: Bounds, mobile: bool): (c: real)
    ensures c >= 0.0
  {
    var base := Round((b.width * b.height) as real * PARTICLE_MULTIPLIER);
    if mobile then base as real * PARTICLE_REDUCTION else base as real
  }

  /** `for (i = 0; i < particleCount; i++)` runs ceil(particleCount) times. */
  function Iterations(count: real): (n: nat)
    requires count >= 0.0
    ensures n as real >= count && (n > 0 ==> (n - 1) as real < count)
  {
    Ceil(count)
  }
}
