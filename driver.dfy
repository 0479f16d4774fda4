/**
 * The animation driver of windy.js: the controller object with its
 * CURRENT_STEP / PAUSED / STOPPED state and listeners (start, stop, pause,
 * play, onTimeChange), and the running animation of `animate` with its
 * particles and buckets (resetParticles, evolve, and the STOPPED test of
 * `frame`).
 */
module Driver {
  import opened JsNumbers
  import opened Settings
  import opened Forecast
  import opened TimeBlend
  import opened Grid
  import opened Projection
  import opened Random
  import opened ScreenField
  import opened Engine

  /** Whether the tick from step s wraps around, which also resets the particles. */
  predicate Wraps(s: int) {
    s + TIMELAPSE_STEP >= TIMELAPSE_FRAMES
  }

  /**
   * CURRENT_STEP after one unpaused tick: advance by TIMELAPSE_STEP, back to
   * 0 on reaching TIMELAPSE_FRAMES. From a step in range the counter cycles
   * through 0..TIMELAPSE_FRAMES-1: it is the next step modulo the frame
   * count, and it is 0 exactly when the tick wraps.
   */
  function NextStep(s: int): (n: int)
    ensures 0 <= s < TIMELAPSE_FRAMES ==>
      && 0 <= n < TIMELAPSE_FRAMES
      && n == (s + 1) % TIMELAPSE_FRAMES
      && (Wraps(s) <==> n == 0)
  {
    var n := s + TIMELAPSE_STEP;
    if n >= TIMELAPSE_FRAMES then 0 else n
  }

  /** evolve's clamp of CURRENT_STEP to [0, TIMELAPSE_FRAMES - 1]. */
  function ClampStep(s: int): (t: int)
    ensures 0 <= t < TIMELAPSE_FRAMES
    ensures 0 <= s < TIMELAPSE_FRAMES ==> t == s
  {
    if s < 0 then 0 else if s >= TIMELAPSE_FRAMES then TIMELAPSE_FRAMES - 1 else s
  }

  /**
   * display_time after `setTime(start_time + (t/TIMELAPSE_FRAMES - 1) * duration)`;
   * Date.setTime truncates to whole milliseconds. With the `- 1` applied to
   * the fraction, a forward series (duration >= 0) shows times from
   * start_time - duration up to start_time, never after start_time; step 0
   * shows exactly start_time - duration.
   */
  function DisplayTime(startTime: int, duration: int, t: int): (shown: int)
    ensures duration >= 0 && 0 <= t < TIMELAPSE_FRAMES ==>
      startTime - duration <= shown <= startTime
    ensures duration >= 0 && t == 0 ==> shown == startTime - duration
  {
    var f := t as real / 1440.0 - 1.0;
    var x := startTime as real + f * duration as real;
    if duration >= 0 && 0 <= t < TIMELAPSE_FRAMES then
      assert -1.0 <= f < 0.0;
      NegativeFractionOf(f, duration as real);
      TruncBetween(x, startTime - duration, startTime);
      assert t == 0 ==> f * duration as real == -(duration as real);
      Trunc(x)
    else
      Trunc(x)
  }

  /** A fraction in [-1, 0] of a non-negative m lies in [-m, 0]. */
  lemma NegativeFractionOf(f: real, m: real)
    requires -1.0 <= f <= 0.0 && m >= 0.0
    ensures -m <= f * m <= 0.0
  {
    MulLeq(-1.0, f, m);
    MulLeq(f, 0.0, m);
  }

  /** Truncation keeps a value between two integers that bound it. */
  lemma TruncBetween(x: real, lo: int, hi: int)
    requires lo as real <= x <= hi as real
    ensures lo <= Trunc(x) <= hi
  {
  }

  /** A listener call that evolve schedules with setTimeout: which listener, with which display time. */
  datatype Notice = Notice(listener: nat, time: int)

  /** One notice per registered listener, in registration order. */
  function Notices(listeners: seq<nat>, time: int): (ns: seq<Notice>)
    ensures |ns| == |listeners|
    ensures forall k :: 0 <= k < |ns| ==> ns[k] == Notice(listeners[k], time)
  {
    if listeners == [] then [] else Notices(listeners[..|listeners| - 1], time) + [Notice(listeners[|listeners| - 1], time)]
  }

  /** The sweep of one tick over population ps, starting at draw counter d. */
  function TickOf(sg: Stage, ps: seq<Particle>, d: nat): Tick {
    Sweep(StepOf(sg), Tick(ps, EmptyBuckets(), d), |ps| - 1)
  }

  /**
   * What one evolve sweep does on stage sg: index 0 is left alone, every
   * other particle takes its own step with the draw counter its
   * higher-indexed predecessors left, two draws are taken per expired
   * particle, ages stay in [0, MAX_PARTICLE_AGE + 1], every bucket lists
   * indices in decreasing order, and no index is in two buckets.
   */
  lemma TickOfEvolve(sg: Stage, ps: seq<Particle>, d: nat)
    requires forall j :: 0 <= j < |ps| ==> 0 <= ps[j].age <= MAX_PARTICLE_AGE + 1
    ensures var r := TickOf(sg, ps, d);
      && |r.particles| == |ps|
      && (|ps| > 0 ==> r.particles[0] == ps[0])
      && (forall j :: 1 <= j < |ps| ==> r.particles[j] == StepAt(sg, ps[j], DrawsBefore(ps, d, j, |ps| - 1)).0)
      && (forall j :: 0 <= j < |ps| ==> 0 <= r.particles[j].age <= MAX_PARTICLE_AGE + 1)
      && r.drawn == d + 2 * Respawns(ps, 1, |ps| - 1)
      && (forall k :: 0 <= k < BUCKET_COUNT ==> Descending(r.buckets[k]))
      && (forall k1: int, k2: int, e: int :: 0 <= k1 < k2 < BUCKET_COUNT && e in r.buckets[k1] ==> e !in r.buckets[k2])
  {
    StageStep(sg);
    TickProperties(StepOf(sg), ps, d);
  }

  /** Index e is in bucket k after the sweep exactly when e is not 0 and its step at its draw counter is visible with bucket k. */
  lemma TickOfBucket(sg: Stage, ps: seq<Particle>, d: nat, k: int, e: int)
    requires 0 <= k < BUCKET_COUNT
    ensures e in TickOf(sg, ps, d).buckets[k] <==>
      1 <= e < |ps| && StepAt(sg, ps[e], DrawsBefore(ps, d, e, |ps| - 1)).1 == Visible(k)
  {
    StageStep(sg);
    TickBucket(StepOf(sg), ps, d, k, e);
  }

  /** One round of evolve's loop keeps the loop invariant of SweepParticles. */
  lemma SweepInvariant(step: StepFn, before: Tick, after: Tick, i: int, next: int, target: Tick)
    requires 0 < i < |before.particles| && |before.buckets| == BUCKET_COUNT && next == i - 1
    requires after == After(step, before, i)
    requires Sweep(step, before, i) == target
    ensures Sweep(step, after, next) == target
  {
    SweepUnfold(step, before, i);
  }

  /** The Windy object: the shared step counter and flags, and the time-change listeners. */
  class Windy {
    var currentStep: int
    var paused: bool
    var stopped: bool
    var listeners: seq<nat>

    ghost predicate Valid()
      reads this
    {
      0 <= currentStep < TIMELAPSE_FRAMES
    }

    constructor ()
      ensures Valid() && currentStep == 0 && !paused && !stopped && listeners == []
    {
      currentStep := 0;
      paused := false;
      stopped := false;
      listeners := [];
    }

    /** pause(): only PAUSED changes. */
    method Pause()
      modifies this
      ensures paused
      ensures currentStep == old(currentStep) && stopped == old(stopped) && listeners == old(listeners)
    {
      paused := true;
    }

    /** play(): only PAUSED changes. */
    method Play()
      modifies this
      ensures !paused
      ensures currentStep == old(currentStep) && stopped == old(stopped) && listeners == old(listeners)
    {
      paused := false;
    }

    /** stop(): sets STOPPED and nothing else, so a second stop changes nothing. */
    method Stop()
      modifies this
      ensures stopped
      ensures currentStep == old(currentStep) && paused == old(paused) && listeners == old(listeners)
    {
      stopped := true;
    }

    /** onTimeChange(cb): appends the listener. */
    method OnTimeChange(cb: nat)
      modifies this
      ensures listeners == old(listeners) + [cb]
      ensures currentStep == old(currentStep) && paused == old(paused) && stopped == old(stopped)
    {
      listeners := listeners + [cb];
    }

    /**
     * start(bounds, width, height, extent): stop, clear STOPPED, then
     * split the records, build the grid, the bounds and the column table,
     * and animate, whose first frame() runs at once. The result is None
     * when the records do not form a usable series, and then nothing
     * after the STOPPED flag changes.
     */
    method Start(records: seq<Record>, env: Env, upperLeft: (real, real), lowerRight: (real, real),
                 width: nat, height: nat, rng: Rng, startTime: int, endTime: int, mobile: bool)
      returns (anim: Option<Animation>, notices: seq<Notice>)
      requires Valid()
      modifies this, rng
      ensures Valid() && !stopped
      ensures paused == old(paused) && listeners == old(listeners)
      ensures anim.Some? <==> MakeSeries(Select(records, 2, 2), Select(records, 2, 3)).Some?
      ensures anim.None? ==> currentStep == old(currentStep) && notices == [] && rng.drawn == old(rng.drawn)
      ensures anim.Some? ==> anim.value.windy == this && anim.value.rng == rng && anim.value.Valid() && fresh(anim.value)
      ensures anim.Some? ==>
        var series := MakeSeries(Select(records, 2, 2), Select(records, 2, 3)).value;
        var a := anim.value;
        && a.field.wind == Scene(series, GridSpec(series), env)
        && a.field.bounds == BuildBounds(upperLeft, lowerRight, width, height)
        && a.field.columns == FieldSpec(env, a.field.bounds)
        && a.startTime == startTime && a.duration == endTime - startTime
        && a.particleCount == ParticleCount(a.field.bounds, mobile)
      ensures anim.Some? ==>
        && currentStep == (if old(paused) then old(currentStep) else NextStep(old(currentStep)))
        && notices == if old(paused) then []
                      else Notices(listeners, DisplayTime(anim.value.startTime, anim.value.duration, currentStep))
      ensures anim.Some? ==>
        var a := anim.value;
        && a.firstPopulation == Population(a.field.bounds, rng.stream, old(rng.drawn), Iterations(a.particleCount))
        && a.firstDrawn == old(rng.drawn) + 3 * Iterations(a.particleCount)
        && Evolved(a.Now(), a.CurrentStage(), a.particleCount, old(currentStep), old(paused), a.firstPopulation, a.firstDrawn)
    {
      Stop();
      stopped := false;
      var prepared := Prepare(records, env, upperLeft, lowerRight, width, height);
      if prepared.None? {
        return None, [];
      }
      var field := prepared.value;
      var a;
      a, notices := Animate(field, rng, startTime, endTime, mobile, old(currentStep), old(paused), old(rng.drawn));
      anim := Some(a);
    }

    /**
     * What start hands to animate: the records split by createBuilder, the
     * grid of buildGrid, the bounds of buildBounds and the column table of
     * interpolateField, as a new field. None when the records do not form a
     * usable series.
     */
    static method Prepare(records: seq<Record>, env: Env, upperLeft: (real, real), lowerRight: (real, real),
                          width: nat, height: nat)
      returns (field: Option<Field>)
      ensures field.Some? <==> MakeSeries(Select(records, 2, 2), Select(records, 2, 3)).Some?
      ensures field.Some? ==>
        var series := MakeSeries(Select(records, 2, 2), Select(records, 2, 3)).value;
        && fresh(field.value)
        && field.value.wind == Scene(series, GridSpec(series), env)
        && field.value.bounds == BuildBounds(upperLeft, lowerRight, width, height)
        && field.value.columns == FieldSpec(env, field.value.bounds)
    {
      var uComp, vComp := CreateBuilder(records);
      var series := MakeSeries(uComp, vComp);
      if series.None? {
        return None;
      }
      var grid := BuildGrid(series.value);
      var bounds := BuildBounds(upperLeft, lowerRight, width, height);
      var columns := InterpolateField(env, bounds);
      var f := new Field(Scene(series.value, grid, env), bounds, columns);
      field := Some(f);
    }

    /**
     * animate(bounds, field, start_date, end_date): the particles of the
     * first resetParticles, then the first frame(), which runs one evolve
     * because STOPPED is clear.
     */
    method Animate(field: Field, rng: Rng, startTime: int, endTime: int, mobile: bool,
                   ghost step0: int, ghost paused0: bool, ghost d0: nat)
      returns (a: Animation, notices: seq<Notice>)
      requires Valid() && !stopped
      requires step0 == currentStep && paused0 == paused && d0 == rng.drawn
      modifies this, rng
      ensures fresh(a) && a.windy == this && a.field == field && a.rng == rng && a.Valid()
      ensures a.startTime == startTime && a.duration == endTime - startTime
      ensures a.particleCount == ParticleCount(field.bounds, mobile)
      ensures !stopped && paused == old(paused) && listeners == old(listeners)
      ensures currentStep == if old(paused) then old(currentStep) else NextStep(old(currentStep))
      ensures notices == if old(paused) then []
                         else Notices(listeners, DisplayTime(a.startTime, a.duration, currentStep))
      ensures a.firstPopulation == Population(field.bounds, rng.stream, d0, Iterations(a.particleCount))
      ensures a.firstDrawn == d0 + 3 * Iterations(a.particleCount)
      ensures Evolved(a.Now(), a.CurrentStage(), a.particleCount, step0, paused0, a.firstPopulation, a.firstDrawn)
    {
      a := new Animation(this, field, rng, startTime, endTime, mobile);
      assert step0 == currentStep && paused0 == paused && !stopped;
      assert a.particles == a.firstPopulation && rng.drawn == a.firstDrawn;
      var ran;
      ran, notices := a.Frame();
    }
  }

  /**
   * `now` (particles, buckets, draw counter) is what one evolve over stage
   * sg leaves when it started with the step counter at step0, PAUSED at
   * paused0, the population ps0 and the draw counter at d0: when the tick
   * wrapped, resetParticles first replaced the population with
   * ceil(count) spawns (3 draws each); then evolve's sweep ran over that
   * population at the new step.
   */
  ghost predicate Evolved(now: Tick, sg: Stage, count: real, step0: int, paused0: bool, ps0: seq<Particle>, d0: nat)
  {
    count >= 0.0 &&
    var n := Iterations(count);
    var wrapped := !paused0 && Wraps(step0);
    var ps := if wrapped then Population(sg.bounds, sg.stream, d0, n) else ps0;
    var d := if wrapped then d0 + 3 * n else d0;
    now == TickOf(sg, ps, d)
  }

  /** A running `animate`: its field, the draws it takes, its time span, its particles and buckets. */
  class Animation {
    const windy: Windy
    const field: Field
    const rng: Rng
    const startTime: int
    const duration: int
    const particleCount: real
    /** The population of animate's own resetParticles call, before any frame. */
    ghost const firstPopulation: seq<Particle>
    /** The draw counter right after that call. */
    ghost const firstDrawn: nat
    var particles: seq<Particle>
    var buckets: seq<seq<nat>>

    /** Ten buckets, the shared step in range, and every age in [0, MAX_PARTICLE_AGE + 1]. */
    ghost predicate Valid()
      reads this, windy
    {
      && |buckets| == BUCKET_COUNT
      && windy.Valid()
      && particleCount >= 0.0
      && (forall j :: 0 <= j < |particles| ==> 0 <= particles[j].age <= MAX_PARTICLE_AGE + 1)
    }

    /** The particles, the buckets and the draw counter, as one value. */
    ghost function Now(): Tick
      reads this, rng
    {
      Tick(particles, buckets, rng.drawn)
    }

    /** The stage an evolve at the current shared step sweeps over. */
    ghost function CurrentStage(): Stage
      reads field, windy
      requires windy.currentStep >= 0
    {
      Stage(field.wind, field.columns, field.bounds, rng.stream, windy.currentStep as real)
    }

    /** animate(bounds, field, start_date, end_date) up to its first resetParticles. */
    constructor (windy: Windy, field: Field, rng: Rng, startTime: int, endTime: int, mobile: bool)
      requires windy.Valid()
      modifies rng
      ensures Valid()
      ensures this.windy == windy && this.field == field && this.rng == rng
      ensures startTime == this.startTime && duration == endTime - startTime
      ensures particleCount == ParticleCount(field.bounds, mobile)
      ensures buckets == EmptyBuckets()
      ensures particles == firstPopulation
      ensures firstPopulation == Population(field.bounds, rng.stream, old(rng.drawn), Iterations(particleCount))
      ensures firstDrawn == old(rng.drawn) + 3 * Iterations(particleCount) && rng.drawn == firstDrawn
    {
      this.windy := windy;
      this.field := field;
      this.rng := rng;
      this.startTime := startTime;
      duration := endTime - startTime;
      particleCount := ParticleCount(field.bounds, mobile);
      particles := [];
      buckets := EmptyBuckets();
      firstPopulation := Population(field.bounds, rng.stream, rng.drawn, Iterations(ParticleCount(field.bounds, mobile)));
      firstDrawn := rng.drawn + 3 * Iterations(ParticleCount(field.bounds, mobile));
      new;
      ResetParticles();
    }

    /**
     * resetParticles(): a new population of ceil(particleCount) particles;
     * each takes one draw for its age and then randomize's two.
     */
    method ResetParticles()
      requires particleCount >= 0.0
      modifies this, rng
      ensures particles == Population(field.bounds, rng.stream, old(rng.drawn), Iterations(particleCount))
      ensures rng.drawn == old(rng.drawn) + 3 * Iterations(particleCount)
      ensures buckets == old(buckets)
      ensures forall j :: 0 <= j < |particles| ==> 0 <= particles[j].age <= MAX_PARTICLE_AGE + 1
    {
      ghost var d := rng.drawn;
      ghost var n := Iterations(particleCount);
      var ps := [];
      var i := 0;
      while (i as real) < particleCount
        modifies rng
        invariant 0 <= i <= n
        invariant rng.drawn == d + 3 * i
        invariant ps == Population(field.bounds, rng.stream, d, i)
        decreases n - i
      {
        ghost var k := rng.drawn;
        var p := SpawnParticle();
        var next := i + 1;
        PopulationSnoc(field.bounds, rng.stream, d, i, next, k);
        ps := ps + [p];
        i := next;
      }
      PopulationRanges(field.bounds, rng.stream, d, i);
      particles := ps;
    }

    /** `field.randomize({age: Math.floor(Math.random() * MAX_PARTICLE_AGE) + 0})`: three draws, age first. */
    method SpawnParticle() returns (p: Particle)
      modifies rng
      ensures rng.drawn == old(rng.drawn) + 3
      ensures p == Spawn(field.bounds, rng.stream(old(rng.drawn)), rng.stream(old(rng.drawn) + 1), rng.stream(old(rng.drawn) + 2))
    {
      var r0 := rng.Next();
      var age := Floor(r0 * MAX_PARTICLE_AGE as real) + 0;
      var x, y := field.Randomize(rng);
      p := Particle(x as real, y as real, None, None, age);
    }

    /**
     * One round of evolve's loop on a particle at frame time t: respawn it
     * in place if it has expired (randomize's two draws, age 0), then
     * advance it through the field (Advance).
     */
    method StepParticle(particle: Particle, t: Time) returns (q: Particle, fate: Fate)
      modifies rng
      ensures (q, fate, rng.drawn)
           == StepAt(Stage(field.wind, field.columns, field.bounds, rng.stream, t), particle, old(rng.drawn))
      ensures fate.Visible? ==> fate.bucket < BUCKET_COUNT
    {
      var sg := Stage(field.wind, field.columns, field.bounds, rng.stream, t);
      q := particle;
      if q.age >= MAX_PARTICLE_AGE {
        var x, y := field.Randomize(rng);
        q := q.(x := x as real, y := y as real, age := 0);
        assert q == Respawn(sg.bounds, particle, sg.stream(old(rng.drawn)), sg.stream(old(rng.drawn) + 1));
      }
      var r := Advance(sg, q);
      q, fate := r.0, r.1;
    }

    /**
     * The body of evolve's loop at index i: step particle i and push the
     * index onto its bucket when its step is visible.
     */
    method SweepRound(ps: seq<Particle>, bs: seq<seq<nat>>, i: int, t: Time) returns (ps': seq<Particle>, bs': seq<seq<nat>>)
      requires 0 < i < |ps| && |bs| == BUCKET_COUNT
      requires 0 <= ps[i].age <= MAX_PARTICLE_AGE + 1
      modifies rng
      ensures Tick(ps', bs', rng.drawn)
           == After(StepOf(Stage(field.wind, field.columns, field.bounds, rng.stream, t)), Tick(ps, bs, old(rng.drawn)), i)
      ensures |ps'| == |ps| && |bs'| == BUCKET_COUNT
      ensures forall j :: 0 <= j < |ps| && j != i ==> ps'[j] == ps[j]
      ensures 1 <= ps'[i].age <= MAX_PARTICLE_AGE + 1
    {
      StepAgeBounds(Stage(field.wind, field.columns, field.bounds, rng.stream, t), ps[i], rng.drawn);
      var q, fate := StepParticle(ps[i], t);
      ps' := ps[i := q];
      bs' := bs;
      if fate.Visible? {
        bs' := bs[fate.bucket := bs[fate.bucket] + [i]];
      }
    }

    /**
     * evolve's loop: empty the buckets, then step the particles from the
     * last down to index 1 (index 0 is never visited), pushing each
     * visible one's index onto its bucket.
     */
    method SweepParticles(t: Time)
      requires forall j :: 0 <= j < |particles| ==> 0 <= particles[j].age <= MAX_PARTICLE_AGE + 1
      modifies this, rng
      ensures Tick(particles, buckets, rng.drawn)
           == TickOf(Stage(field.wind, field.columns, field.bounds, rng.stream, t), old(particles), old(rng.drawn))
      ensures |buckets| == BUCKET_COUNT
      ensures forall j :: 0 <= j < |particles| ==> 0 <= particles[j].age <= MAX_PARTICLE_AGE + 1
    {
      ghost var sg := Stage(field.wind, field.columns, field.bounds, rng.stream, t);
      ghost var step := StepOf(sg);
      var ps := particles;
      var bs := EmptyBuckets();
      ghost var target := Sweep(step, Tick(ps, bs, rng.drawn), |ps| - 1);
      assert target == TickOf(sg, ps, rng.drawn);
      var i := |ps| - 1;
      while i > 0
        modifies rng
        invariant i < |ps| && |bs| == BUCKET_COUNT
        invariant forall j :: 0 <= j < |ps| ==> 0 <= ps[j].age <= MAX_PARTICLE_AGE + 1
        invariant Sweep(step, Tick(ps, bs, rng.drawn), i) == target
        decreases i
      {
        ghost var before := Tick(ps, bs, rng.drawn);
        ps, bs := SweepRound(ps, bs, i, t);
        var next := i - 1;
        SweepInvariant(step, before, Tick(ps, bs, rng.drawn), i, next, target);
        i := next;
      }
      assert Sweep(step, Tick(ps, bs, rng.drawn), i) == Tick(ps, bs, rng.drawn);
      assert sg == Stage(field.wind, field.columns, field.bounds, rng.stream, t);
      particles, buckets := ps, bs;
    }

    /**
     * The first half of evolve(): unless paused, advance the step
     * (wrapping to 0 and resetting the particles) and notify every
     * listener. Returns the frame time the sweep uses.
     */
    method AdvanceTime() returns (t: int, notices: seq<Notice>)
      requires Valid()
      modifies this, windy, rng
      ensures Valid() && buckets == old(buckets)
      ensures windy.paused == old(windy.paused) && windy.stopped == old(windy.stopped)
      ensures windy.listeners == old(windy.listeners)
      ensures windy.currentStep == if old(windy.paused) then old(windy.currentStep) else NextStep(old(windy.currentStep))
      ensures t == windy.currentStep
      ensures notices == if old(windy.paused) then []
                         else Notices(windy.listeners, DisplayTime(startTime, duration, windy.currentStep))
      ensures !old(windy.paused) && Wraps(old(windy.currentStep)) ==>
        && particles == Population(field.bounds, rng.stream, old(rng.drawn), Iterations(particleCount))
        && rng.drawn == old(rng.drawn) + 3 * Iterations(particleCount)
      ensures !(!old(windy.paused) && Wraps(old(windy.currentStep))) ==>
        particles == old(particles) && rng.drawn == old(rng.drawn)
    {
      t := windy.currentStep;
      notices := [];
      if !windy.paused {
        windy.currentStep := windy.currentStep + TIMELAPSE_STEP;
        if windy.currentStep >= TIMELAPSE_FRAMES {
          windy.currentStep := 0;
          ResetParticles();
        }
        t := ClampStep(windy.currentStep);
        var shown := DisplayTime(startTime, duration, t);
        var k := 0;
        while k < |windy.listeners|
          invariant 0 <= k <= |windy.listeners|
          invariant notices == Notices(windy.listeners[..k], shown)
        {
          assert windy.listeners[..k + 1][..k] == windy.listeners[..k];
          notices := notices + [Notice(windy.listeners[k], shown)];
          k := k + 1;
        }
        assert windy.listeners[..k] == windy.listeners;
      }
    }

    /**
     * evolve(): advance the clock, then sweep the particles at the frame
     * time. The new state is the sweep of the (possibly reset) population
     * from the (possibly advanced) draw counter.
     */
    method Evolve() returns (notices: seq<Notice>)
      requires Valid()
      modifies this, windy, rng
      ensures Valid()
      ensures windy.paused == old(windy.paused) && windy.stopped == old(windy.stopped)
      ensures windy.listeners == old(windy.listeners)
      ensures windy.currentStep == if old(windy.paused) then old(windy.currentStep) else NextStep(old(windy.currentStep))
      ensures notices == if old(windy.paused) then []
                         else Notices(windy.listeners, DisplayTime(startTime, duration, windy.currentStep))
      ensures Evolved(Now(), CurrentStage(), particleCount,
                      old(windy.currentStep), old(windy.paused), old(particles), old(rng.drawn))
    {
      var t;
      t, notices := AdvanceTime();
      ghost var n := Iterations(particleCount);
      ghost var wrapped := !old(windy.paused) && Wraps(old(windy.currentStep));
      ghost var ps, d := particles, rng.drawn;
      assert ps == if wrapped then Population(field.bounds, rng.stream, old(rng.drawn), n) else old(particles);
      assert d == if wrapped then old(rng.drawn) + 3 * n else old(rng.drawn);
      SweepParticles(t as real);
      assert Now() == TickOf(CurrentStage(), ps, d);
    }

    /**
     * One `frame()`: nothing at all happens once STOPPED is set; otherwise
     * one evolve runs (drawing is not part of this model).
     */
    method Frame() returns (ran: bool, notices: seq<Notice>)
      requires Valid()
      modifies this, windy, rng
      ensures Valid()
      ensures ran == !old(windy.stopped)
      ensures windy.paused == old(windy.paused) && windy.stopped == old(windy.stopped)
      ensures windy.listeners == old(windy.listeners)
      ensures !ran ==> && notices == [] && windy.stopped && windy.currentStep == old(windy.currentStep)
                       && particles == old(particles) && buckets == old(buckets) && rng.drawn == old(rng.drawn)
      ensures ran ==>
        && windy.currentStep == (if old(windy.paused) then old(windy.currentStep) else NextStep(old(windy.currentStep)))
        && notices == if old(windy.paused) then []
                      else Notices(windy.listeners, DisplayTime(startTime, duration, windy.currentStep))
      ensures ran ==> Evolved(Now(), CurrentStage(), particleCount,
                              old(windy.currentStep), old(windy.paused), old(particles), old(rng.drawn))
    {
      if windy.stopped {
        return false, [];
      }
      notices := Evolve();
      ran := true;
    }
  }
}
