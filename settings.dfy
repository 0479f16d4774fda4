/** The tuning constants at the top of windy.js that the simulation core uses. */
module Settings {
  /** Scale applied to wind velocity before distortion (VELOCITY_SCALE). */
  const VELOCITY_SCALE: real := 0.011
  /** Wind speed at which the bucket index saturates (MAX_WIND_INTENSITY). */
  const MAX_WIND_INTENSITY: real := 0.75
  /** Number of ticks a particle lives before it is respawned (MAX_PARTICLE_AGE). */
  const MAX_PARTICLE_AGE: int := 50
  /** Particles per canvas pixel (PARTICLE_MULTIPLIER). */
  const PARTICLE_MULTIPLIER: real := 1.0 / 1000.0
  /** Share of particles kept on mobile devices (PARTICLE_REDUCTION). */
  const PARTICLE_REDUCTION: real := 0.75
  /** Number of animation steps over the whole forecast series (TIMELAPSE_FRAMES). */
  const TIMELAPSE_FRAMES: nat := 1440
  /** Steps the animation advances per unpaused tick (TIMELAPSE_STEP). */
  const TIMELAPSE_STEP: nat := 1
  /** Number of colour styles, hence of particle buckets, built by windIntensityColorScale. */
  const BUCKET_COUNT: nat := 10
}
