/** The spawner: a fixed pool of blocks made once, a rotating cursor that
    hands out free blocks, and the per-frame spawn cadence. Its pool view is
    proved against module Pool and its timers against module Cadence. */
module Spawning {
  import Session
  import Blocks
  import opened Pool
  import Cadence

  /** A frame of the spawner switches on at most two blocks, and none while
      the round is inactive or past the cutoff. */
  lemma FrameSpawnsAtMostTwo(p: PoolState, t: Cadence.Timers, tuning: Cadence.Tuning,
                             gameActive: bool, elapsed: real, now: real, dt: real)
    requires CursorOk(|p.flags|, p.cursor)
    ensures var q := SpawnTimes(p, Cadence.Tick(t, tuning, gameActive, elapsed, now, dt).attempts);
      CountActive(p.flags) <= CountActive(q.flags) <= CountActive(p.flags) + 2 &&
      (!gameActive || elapsed > Cadence.SpawnCutoff ==> q == p)
  {
    if !gameActive || elapsed > Cadence.SpawnCutoff {
      Cadence.GatedTickIsIdle(t, tuning, gameActive, elapsed, now, dt);
    } else {
      Cadence.OpenTick(t, tuning, elapsed, now, dt);
    }
    SpawnTimesCount(p, Cadence.Tick(t, tuning, gameActive, elapsed, now, dt).attempts);
  }

  class BlockSpawner {
    const gameManager: Session.GameManager
    /** The spawn period at the start (1 second unless configured otherwise). */
    const initialSpawnRate: real
    /** Seconds of play between ramp steps (15 unless configured otherwise). */
    const spawnRateIncreaseInterval: real
    /** How much each ramp step takes off the period (0.03 unless configured otherwise). */
    const speedIncreaseFactor: real
    /** Number of blocks in the pool (10 unless configured otherwise). */
    const poolSize: nat

    var spawnRate: real
    var nextSpawnTime: real
    var gameTimeElapsed: real

    var blockPool: array<Blocks.Block>
    var currentBlockIndex: nat

    /** The slot each pooled block sits in (a proof device: it shows that
        no block sits in two slots). */
    ghost var slotOf: map<Blocks.Block, nat>
    /** The pooled blocks, as a set. */
    ghost var Repr: set<Blocks.Block>

    /** The pool has `poolSize` distinct blocks, the cursor is usable, and
        every block in play reports to this spawner's session. */
    ghost predicate Valid()
      reads this`blockPool, this`currentBlockIndex, this`slotOf, this`Repr, blockPool, Repr
    {
      Distinct() && CursorOk(poolSize, currentBlockIndex) && BlocksReport()
    }

    /** Every block in play reports to this spawner's session (the spawner
        tells each block it switches on which session that is). */
    ghost predicate BlocksReport()
      requires Distinct()
      reads this`blockPool, this`slotOf, this`Repr, blockPool, Repr
    {
      forall k :: 0 <= k < blockPool.Length && blockPool[k].active ==> blockPool[k].gameManager == gameManager
    }

    /** The pool holds `poolSize` blocks, none of them in two slots. */
    ghost predicate Distinct()
      reads this`blockPool, this`slotOf, this`Repr, blockPool
    {
      blockPool.Length == poolSize &&
      forall k :: 0 <= k < blockPool.Length ==> blockPool[k] in Repr && blockPool[k] in slotOf && slotOf[blockPool[k]] == k
    }

    /** The pool as module Pool sees it. */
    ghost function PoolView(): (p: PoolState)
      requires Distinct()
      reads this`blockPool, this`currentBlockIndex, this`slotOf, this`Repr, blockPool, Repr
      ensures |p.flags| == blockPool.Length && p.cursor == currentBlockIndex
      ensures forall k :: 0 <= k < blockPool.Length ==> p.flags[k] == blockPool[k].active
    {
      var pool, blocks := blockPool, Repr;
      PoolState(seq(pool.Length, k requires 0 <= k < pool.Length && pool[k] in blocks reads pool, blocks => pool[k].active), currentBlockIndex)
    }

    /** The cadence timers as module Cadence sees them. */
    function Timers(): Cadence.Timers
      reads this`spawnRate, this`nextSpawnTime, this`gameTimeElapsed
    {
      Cadence.Timers(spawnRate, nextSpawnTime, gameTimeElapsed)
    }

    function Tuning(): Cadence.Tuning
    {
      Cadence.Tuning(spawnRateIncreaseInterval, speedIncreaseFactor)
    }

    /** Set-up at the clock time `now`: the period starts at its initial
        value, the first spawn is due one period from now, and the pool is
        filled with `poolSize` new blocks, every one of them inactive. */
    constructor (gameManager: Session.GameManager, poolSize: nat, initialSpawnRate: real,
                 spawnRateIncreaseInterval: real, speedIncreaseFactor: real,
                 blockBaseSpeed: real, now: real)
      ensures Valid() && fresh(blockPool)
      ensures this.gameManager == gameManager && this.poolSize == poolSize
      ensures this.initialSpawnRate == initialSpawnRate
      ensures this.spawnRateIncreaseInterval == spawnRateIncreaseInterval
      ensures this.speedIncreaseFactor == speedIncreaseFactor
      ensures Timers() == Cadence.Timers(initialSpawnRate, now + initialSpawnRate, 0.0)
      ensures currentBlockIndex == 0
      ensures blockPool.Length == poolSize
      ensures forall k :: 0 <= k < poolSize ==> fresh(blockPool[k]) && !blockPool[k].active
    {
      this.gameManager := gameManager;
      this.poolSize := poolSize;
      this.initialSpawnRate := initialSpawnRate;
      this.spawnRateIncreaseInterval := spawnRateIncreaseInterval;
      this.speedIncreaseFactor := speedIncreaseFactor;
      gameTimeElapsed := 0.0;
      currentBlockIndex := 0;
      spawnRate := initialSpawnRate;
      nextSpawnTime := now + initialSpawnRate;
      blockPool := new Blocks.Block[0];
      slotOf := map[];
      Repr := {};
      new;
      InitializeBlockPool(blockBaseSpeed);
    }

    /** Makes the pool: `poolSize` new blocks, each switched off, at distinct
        slots. */
    method InitializeBlockPool(blockBaseSpeed: real)
      modifies this`blockPool, this`slotOf, this`Repr
      ensures fresh(blockPool) && blockPool.Length == poolSize
      ensures forall k :: 0 <= k < poolSize ==> blockPool[k] in Repr
      ensures forall k :: 0 <= k < poolSize ==> fresh(blockPool[k]) && !blockPool[k].active
      ensures forall k :: 0 <= k < poolSize ==> blockPool[k] in slotOf && slotOf[blockPool[k]] == k
    {
      var blocks: seq<Blocks.Block> := [];
      slotOf := map[];
      for i := 0 to poolSize
        invariant |blocks| == i
        invariant forall k :: 0 <= k < i ==> fresh(blocks[k]) && !blocks[k].active
        invariant forall k :: 0 <= k < i ==> blocks[k] in slotOf && slotOf[blocks[k]] == k
        invariant forall k :: 0 <= k < i ==> blocks[k] in Repr
      {
        var block := new Blocks.Block(blockBaseSpeed, 0.0);
        block.SetActive(false);
        blocks := blocks + [block];
        slotOf := slotOf[block := i];
        Repr := Repr + {block};
      }
      blockPool := new Blocks.Block[poolSize](k requires 0 <= k < poolSize => blocks[k]);
    }

    /** Hands out a free block. The cursor steps round the pool,
        `(cursor + 1) % poolSize`, at most `poolSize` times and stops at the
        first inactive block, which is returned; when every block is active
        the result is null and the cursor is back where it started. No block
        changes. */
    method GetPooledBlock() returns (block: Blocks.Block?)
      requires Valid()
      modifies this`currentBlockIndex
      ensures Valid()
      ensures var a := Acquire(old(PoolView()));
        currentBlockIndex == a.pool.cursor &&
        (a.slot.None? ==> block == null) &&
        (a.slot.Some? ==> block == blockPool[a.slot.value])
    {
      ghost var p := PoolView();
      ghost var start := currentBlockIndex;
      for i := 0 to poolSize
        invariant CursorOk(poolSize, currentBlockIndex)
        invariant i == 0 ==> currentBlockIndex == start
        invariant 0 < i ==> currentBlockIndex == Probe(start, i - 1, poolSize)
        invariant forall e :: 0 <= e < i ==> p.flags[Probe(start, e, poolSize)]
      {
        StepReachesProbe(start, i, poolSize, currentBlockIndex);
        currentBlockIndex := (currentBlockIndex + 1) % poolSize;
        assert p.flags[currentBlockIndex] == blockPool[currentBlockIndex].active;
        if !blockPool[currentBlockIndex].active {
          AcquireStopsAt(p, i);
          return blockPool[currentBlockIndex];
        }
        assert p.flags[Probe(start, i, poolSize)];
      }
      if poolSize > 0 {
        ProbeWrapsToStart(start, poolSize);
      }
      AcquireRunsThrough(p);
      return null;
    }

    /** One spawn: take a free block from the pool, if any, put it at the
        depth `spawnZ` of the spawn point chosen for it, switch it on and
        tell it which session to report to. The pool then is Spawn of what it
        was: only the slot handed out changes, and only when there was one. */
    method SpawnBlock(spawnZ: real)
      requires Valid()
      modifies this`currentBlockIndex, Repr
      ensures Valid()
      ensures PoolView() == Spawn(old(PoolView()))
      ensures var a := Acquire(old(PoolView()));
        a.slot.Some? ==> blockPool[a.slot.value].gameManager == gameManager
      ensures forall j :: 0 <= j < blockPool.Length && (old(blockPool[j].active) || !blockPool[j].active) ==>
        unchanged(blockPool[j])
      ensures forall j :: 0 <= j < blockPool.Length ==> blockPool[j].currentSpeed == old(blockPool[j].currentSpeed)
      ensures forall j :: 0 <= j < blockPool.Length && !old(blockPool[j].active) && blockPool[j].active ==>
        blockPool[j].z == spawnZ
    {
      var block := GetPooledBlock();
      if block != null {
        PlaceBlock(block, spawnZ);
      }
    }

    /** Sets up a block handed out by the pool: it goes to depth `spawnZ`,
        is switched on and reports to this spawner's session. Its speed is
        left as it was. */
    method PlaceBlock(block: Blocks.Block, spawnZ: real)
      modifies block
      ensures block.z == spawnZ && block.active && block.gameManager == gameManager
      ensures block.currentSpeed == old(block.currentSpeed)
    {
      block.z := spawnZ;
      block.SetActive(true);
      block.SetGameManager(gameManager);
    }

    /** A spawn check, as the frame makes it twice: when `clock` has reached
        `nextSpawnTime`, spawn once and schedule the next spawn one period
        after `now`; `spawnZ` is the depth of the spawn point chosen. */
    method SpawnIfDue(clock: real, now: real, spawnZ: real)
      requires Valid()
      modifies this`nextSpawnTime, this`currentBlockIndex, Repr
      ensures Valid()
      ensures var f := Cadence.SpawnCheck(Cadence.Frame(old(Timers()), 0), clock, now);
        Timers() == f.timers && PoolView() == SpawnTimes(old(PoolView()), f.attempts)
      ensures forall j :: 0 <= j < blockPool.Length && (old(blockPool[j].active) || !blockPool[j].active) ==>
        unchanged(blockPool[j])
      ensures forall j :: 0 <= j < blockPool.Length ==> blockPool[j].currentSpeed == old(blockPool[j].currentSpeed)
      ensures forall j :: 0 <= j < blockPool.Length && !old(blockPool[j].active) && blockPool[j].active ==>
        blockPool[j].z == spawnZ
    {
      ghost var p0 := PoolView();
      if clock >= nextSpawnTime {
        SpawnBlock(spawnZ);
        nextSpawnTime := now + spawnRate;
        SpawnTimesStep(p0, 1);
      }
    }

    /** The ramp check: once the accumulator has reached the interval,
        reset it and take one ramp step off the period. */
    method RampIfDue()
      modifies this`spawnRate, this`gameTimeElapsed
      ensures Timers() == Cadence.RampCheck(Cadence.Frame(old(Timers()), 0), Tuning()).timers
    {
      if gameTimeElapsed >= spawnRateIncreaseInterval {
        gameTimeElapsed := 0.0;
        spawnRate := Cadence.RampedRate(spawnRate, speedIncreaseFactor);
      }
    }

    /** One frame of the spawner at clock time `now`, `dt` seconds after the
        last. Nothing happens while the round is inactive or past 118
        seconds. Otherwise the timers move as Cadence.Tick says and the pool
        sees as many spawn attempts as that frame makes (at most two). The
        spawn points are picked at random: `firstSpawnZ` is the depth of the
        one the clock-based check would use, `secondSpawnZ` that of the
        elapsed-time check. */
    method Update(now: real, dt: real, firstSpawnZ: real, secondSpawnZ: real)
      requires Valid()
      modifies this`spawnRate, this`nextSpawnTime, this`gameTimeElapsed, this`currentBlockIndex, Repr
      ensures Valid()
      ensures var f := Cadence.Tick(old(Timers()), Tuning(), gameManager.isGameActive, gameManager.elapsedTime, now, dt);
        Timers() == f.timers && PoolView() == SpawnTimes(old(PoolView()), f.attempts)
      ensures !gameManager.isGameActive || gameManager.elapsedTime > Cadence.SpawnCutoff ==>
        unchanged(this) && unchanged(Repr)
      ensures forall j :: 0 <= j < blockPool.Length && (old(blockPool[j].active) || !blockPool[j].active) ==>
        unchanged(blockPool[j])
      ensures forall j :: 0 <= j < blockPool.Length ==> blockPool[j].currentSpeed == old(blockPool[j].currentSpeed)
      ensures forall j :: 0 <= j < blockPool.Length && !old(blockPool[j].active) && blockPool[j].active ==>
        blockPool[j].z == firstSpawnZ || blockPool[j].z == secondSpawnZ
    {
      if !gameManager.isGameActive {
        return;
      }
      if gameManager.elapsedTime > Cadence.SpawnCutoff {
        return;
      }
      OpenFrame(now, dt, firstSpawnZ, secondSpawnZ);
    }

    /** The frame of an active round before the cutoff, in the source's
        order: accumulate `dt`, the clock-based spawn check, the ramp check,
        and the elapsed-time spawn check. */
    method OpenFrame(now: real, dt: real, firstSpawnZ: real, secondSpawnZ: real)
      requires Valid()
      modifies this`spawnRate, this`nextSpawnTime, this`gameTimeElapsed, this`currentBlockIndex, Repr
      ensures Valid()
      ensures var f0 := Cadence.Frame(old(Timers()).(gameTimeElapsed := old(gameTimeElapsed) + dt), 0);
        var f := Cadence.SpawnCheck(Cadence.RampCheck(Cadence.SpawnCheck(f0, now, now), Tuning()), gameManager.elapsedTime, now);
        Timers() == f.timers && PoolView() == SpawnTimes(old(PoolView()), f.attempts)
      ensures forall j :: 0 <= j < blockPool.Length && (old(blockPool[j].active) || !blockPool[j].active) ==>
        unchanged(blockPool[j])
      ensures forall j :: 0 <= j < blockPool.Length ==> blockPool[j].currentSpeed == old(blockPool[j].currentSpeed)
      ensures var a := Acquire(old(PoolView()));
        now >= old(nextSpawnTime) && a.slot.Some? ==> blockPool[a.slot.value].z == firstSpawnZ
      ensures var a := Acquire(old(PoolView()));
        forall j :: (0 <= j < blockPool.Length && !old(blockPool[j].active) && blockPool[j].active &&
                     !(now >= old(nextSpawnTime) && a.slot == Some(j))) ==>
          blockPool[j].z == secondSpawnZ
    {
      ghost var p0 := PoolView();
      ghost var a := Acquire(p0);
      ghost var t0 := Timers().(gameTimeElapsed := gameTimeElapsed + dt);
      ghost var fired := now >= nextSpawnTime;
      ClockSpawnAndRamp(now, dt, firstSpawnZ);
      SpawnTimesStep(p0, if fired then 1 else 0);
      SpawnChangesOnlyChosen(p0);
      assert forall j :: 0 <= j < blockPool.Length && blockPool[j].active && !p0.flags[j] ==>
        fired && a.slot == Some(j);
      ghost var g1 := Cadence.SpawnCheck(Cadence.Frame(t0, 0), now, now);
      ghost var g2 := Cadence.RampCheck(Cadence.Frame(g1.timers, 0), Tuning());
      SpawnIfDue(gameManager.elapsedTime, now, secondSpawnZ);
      ghost var g3 := Cadence.SpawnCheck(Cadence.Frame(g2.timers, 0), gameManager.elapsedTime, now);
      SpawnTimesStep(p0, g1.attempts);
      SpawnTimesStep(SpawnTimes(p0, g1.attempts), g3.attempts);
      SpawnTimesStep(p0, g1.attempts + g3.attempts);
      Cadence.OpenFrameSteps(t0, Tuning(), gameManager.elapsedTime, now);
    }

    /** The first part of an open frame: accumulate `dt`, the clock-based
        spawn check, then the ramp check. */
    method ClockSpawnAndRamp(now: real, dt: real, spawnZ: real)
      requires Valid()
      modifies this`spawnRate, this`nextSpawnTime, this`gameTimeElapsed, this`currentBlockIndex, Repr
      ensures Valid()
      ensures var g1 := Cadence.SpawnCheck(Cadence.Frame(old(Timers()).(gameTimeElapsed := old(gameTimeElapsed) + dt), 0), now, now);
        Timers() == Cadence.RampCheck(Cadence.Frame(g1.timers, 0), Tuning()).timers &&
        PoolView() == SpawnTimes(old(PoolView()), g1.attempts)
      ensures forall j :: 0 <= j < blockPool.Length && (old(blockPool[j].active) || !blockPool[j].active) ==>
        unchanged(blockPool[j])
      ensures forall j :: 0 <= j < blockPool.Length ==> blockPool[j].currentSpeed == old(blockPool[j].currentSpeed)
      ensures forall j :: 0 <= j < blockPool.Length && !old(blockPool[j].active) && blockPool[j].active ==>
        blockPool[j].z == spawnZ
    {
      gameTimeElapsed := gameTimeElapsed + dt;
      SpawnIfDue(now, now, spawnZ);
      RampIfDue();
    }
  }
}
