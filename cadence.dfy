/** The spawner's per-frame timing, stated on values: when a frame spawns,
    how the spawn period shrinks, and what the three timers become.
    BlockSpawner.Update (module Spawning) is proved against `Tick`. */
module Cadence {

  /** Spawning stops once the round's elapsed time is past this many seconds. */
  const SpawnCutoff: real := 118.0

  /** The spawn period never ramps below this many seconds. */
  const MinSpawnRate: real := 0.3

  /** The spawner's three timers: the current spawn period, the clock time
      of the next time-based spawn, and the time accumulated towards the next
      ramp step. */
  datatype Timers = Timers(spawnRate: real, nextSpawnTime: real, gameTimeElapsed: real)

  /** The spawner's tunables: how long to play before each ramp step and how
      much each step takes off the spawn period. */
  datatype Tuning = Tuning(spawnRateIncreaseInterval: real, speedIncreaseFactor: real)

  /** One ramp step: shorten the period by `step`, but not below the floor. */
  function RampedRate(rate: real, step: real): (r: real)
    ensures r >= MinSpawnRate
    ensures r >= rate - step
    ensures r == MinSpawnRate || r == rate - step
    ensures rate >= MinSpawnRate && step >= 0.0 ==> r <= rate
  {
    if MinSpawnRate >= rate - step then MinSpawnRate else rate - step
  }

  /** `k` ramp steps in a row. From a period at or above the floor, with a
      non-negative step, the period stays between the floor and where it
      started; after at least one step it is at or above the floor
      whatever it started from. */
  function RampTimes(rate: real, step: real, k: nat): (r: real)
    ensures rate >= MinSpawnRate && step >= 0.0 ==> MinSpawnRate <= r <= rate
    ensures k > 0 ==> r >= MinSpawnRate
    decreases k
  {
    if k == 0 then rate else RampTimes(RampedRate(rate, step), step, k - 1)
  }

  /** After `k` ramp steps the period is the floor or `k` steps less,
      whichever is larger (for a period at or above the floor and a
      non-negative step). */
  lemma {:induction false} RampTimesClosedForm(rate: real, step: real, k: nat)
    requires rate >= MinSpawnRate && step >= 0.0
    ensures RampTimes(rate, step, k) == if MinSpawnRate >= rate - (k as real) * step then MinSpawnRate else rate - (k as real) * step
    decreases k
  {
    if k > 0 {
      RampTimesClosedForm(RampedRate(rate, step), step, k - 1);
      assert (k as real) * step == ((k - 1) as real) * step + step;
    }
  }

  /** Eight ramp steps with the default tuning: max(0.3, 1.0 - 8 * 0.03) =
      0.76 seconds. */
  lemma EightRampsFromDefault()
    ensures RampTimes(1.0, 0.03, 8) == 0.76
  {
    RampTimesClosedForm(1.0, 0.03, 8);
  }

  /** The outcome of one frame: the new timers and how many spawn attempts
      (calls of SpawnBlock) it made. */
  datatype Frame = Frame(timers: Timers, attempts: nat)

  /** A spawn check: when `clock` has reached `nextSpawnTime`, spawn once and
      schedule the next spawn one period after `now`. It adds one attempt
      exactly when the check is due, and never touches the period or the
      ramp accumulator. */
  function SpawnCheck(f: Frame, clock: real, now: real): (r: Frame)
    ensures r.timers.spawnRate == f.timers.spawnRate
    ensures r.timers.gameTimeElapsed == f.timers.gameTimeElapsed
    ensures r.attempts == f.attempts + 1 <==> clock >= f.timers.nextSpawnTime
    ensures f.attempts <= r.attempts <= f.attempts + 1
  {
    if clock >= f.timers.nextSpawnTime then
      Frame(f.timers.(nextSpawnTime := now + f.timers.spawnRate), f.attempts + 1)
    else f
  }

  /** The ramp check: once the accumulator has reached the interval, reset it
      and take one ramp step off the period. It makes no spawn attempt and
      leaves the next spawn time alone; the period either stays or takes one
      ramp step, and a changed period comes with a reset accumulator. */
  function RampCheck(f: Frame, tuning: Tuning): (r: Frame)
    ensures r.attempts == f.attempts
    ensures r.timers.nextSpawnTime == f.timers.nextSpawnTime
    ensures r.timers.spawnRate == f.timers.spawnRate ||
            r.timers.spawnRate == RampedRate(f.timers.spawnRate, tuning.speedIncreaseFactor)
    ensures r.timers.spawnRate != f.timers.spawnRate ==> r.timers.gameTimeElapsed == 0.0
  {
    if f.timers.gameTimeElapsed >= tuning.spawnRateIncreaseInterval then
      Frame(f.timers.(gameTimeElapsed := 0.0,
                      spawnRate := RampedRate(f.timers.spawnRate, tuning.speedIncreaseFactor)),
            f.attempts)
    else f
  }

  /** The open frame taken one check at a time, each check starting from the
      timers the previous one left and counting its own attempts: the
      attempts add up. */
  lemma OpenFrameSteps(t: Timers, tuning: Tuning, elapsed: real, now: real)
    ensures var g1 := SpawnCheck(Frame(t, 0), now, now);
      var g2 := RampCheck(Frame(g1.timers, 0), tuning);
      var g3 := SpawnCheck(Frame(g2.timers, 0), elapsed, now);
      SpawnCheck(RampCheck(g1, tuning), elapsed, now) == Frame(g3.timers, g1.attempts + g3.attempts)
  {
  }

  /** One frame of the spawner, given whether the round is active, the
      round's elapsed time, the clock `now` and the frame time `dt`.
      The frame does nothing while the round is inactive or past the
      cutoff. Otherwise it adds `dt` to the ramp accumulator and makes, in
      this order:
      - a time-based spawn check against the clock `now`;
      - the ramp check;
      - a second spawn check against the round's elapsed time (compared
        with `nextSpawnTime`, a value in clock units, as written). */
  function Tick(t: Timers, tuning: Tuning, gameActive: bool, elapsed: real, now: real, dt: real): (r: Frame)
    ensures r.attempts <= 2
    ensures r.timers.spawnRate == t.spawnRate ||
            r.timers.spawnRate == RampedRate(t.spawnRate, tuning.speedIncreaseFactor)
  {
    if !gameActive || elapsed > SpawnCutoff then Frame(t, 0)
    else
      var f0 := Frame(t.(gameTimeElapsed := t.gameTimeElapsed + dt), 0);
      SpawnCheck(RampCheck(SpawnCheck(f0, now, now), tuning), elapsed, now)
  }

  /** A frame while the round is inactive, or past the cutoff, changes no
      timer and spawns nothing. */
  lemma GatedTickIsIdle(t: Timers, tuning: Tuning, gameActive: bool, elapsed: real, now: real, dt: real)
    requires !gameActive || elapsed > SpawnCutoff
    ensures Tick(t, tuning, gameActive, elapsed, now, dt) == Frame(t, 0)
  {
  }

  /** An open frame makes at most two spawn attempts; it makes one when the
      clock has reached `nextSpawnTime`, and its ramp accumulator grows by
      `dt` or is reset to 0 by a ramp step. */
  lemma OpenTick(t: Timers, tuning: Tuning, elapsed: real, now: real, dt: real)
    requires elapsed <= SpawnCutoff
    ensures var f := Tick(t, tuning, true, elapsed, now, dt);
      f.attempts <= 2 &&
      (now >= t.nextSpawnTime ==> f.attempts >= 1) &&
      (now < t.nextSpawnTime && elapsed < t.nextSpawnTime ==> f.attempts == 0) &&
      (f.timers.gameTimeElapsed == 0.0 || f.timers.gameTimeElapsed == t.gameTimeElapsed + dt)
  {
  }

  /** Both spawn checks can fire in one frame, but only with the round's
      elapsed time ahead of the clock: here the clock is due, and the elapsed
      time is already past the time the first check schedules next. In play
      the elapsed time never gets ahead of the clock (see
      SecondCheckDormant). */
  lemma TwoAttemptsInOneFrame()
    ensures Tick(Timers(1.0, 0.0, 0.0), Tuning(15.0, 0.03), true, 5.0, 0.0, 0.016).attempts == 2
  {
  }

  /** The spawn period stays within [floor, p] across a frame when it starts
      there and the step is non-negative: it never grows, and a ramp step
      either takes `step` off or lands on the floor. After a ramp step the
      accumulator is 0. */
  lemma TickRateBounds(t: Timers, tuning: Tuning, gameActive: bool, elapsed: real, now: real, dt: real)
    requires t.spawnRate >= MinSpawnRate && tuning.speedIncreaseFactor >= 0.0
    ensures var f := Tick(t, tuning, gameActive, elapsed, now, dt);
      MinSpawnRate <= f.timers.spawnRate <= t.spawnRate &&
      (f.timers.spawnRate != t.spawnRate ==> f.timers.gameTimeElapsed == 0.0)
  {
  }

  /** The second spawn check compares the round's elapsed time with a clock
      reading. While elapsed time is at most the clock (a round starts after
      the clock has run) and the period is positive, that check never
      fires, so each frame makes at most one attempt. */
  lemma SecondCheckDormant(t: Timers, tuning: Tuning, gameActive: bool, elapsed: real, now: real, dt: real)
    requires elapsed <= now && t.spawnRate > 0.0
    ensures Tick(t, tuning, gameActive, elapsed, now, dt).attempts <= 1
  {
  }
}
