/** The three components together: the spawner's pool holds the very block
    objects that fly at the player, and every block reports to the session
    the spawner handed it. A block that gets past the player frees its pool
    slot and costs the session 5 points; a sword hit earns 10 points and
    keeps the slot taken. */
module Arcade {
  import Blocks
  import Spawning
  import opened Pool

  /** The frame of the block in pool slot `k`. The engine runs a block's
      frame only while the block is in play, so a free slot is left alone.
      A block in play that, during an active round, ends the frame at or
      behind the player's depth frees exactly its own slot: the pool's flags
      lose slot `k`, the cursor stays, the score drops by 5 and the next
      spawn is sure to find a free block. Any other frame leaves the pool's
      flags and the score as they were. The session's clocks and flags
      never change. */
  method BlockFrame(spawner: Spawning.BlockSpawner, k: nat, playerZ: real, dirZ: real, dt: real)
    requires spawner.Valid() && k < spawner.blockPool.Length
    requires spawner.gameManager.Valid()
    modifies spawner.blockPool[k], spawner.gameManager
    ensures spawner.Valid() && spawner.gameManager.Valid()
    ensures spawner.gameManager.isGameActive == old(spawner.gameManager.isGameActive) &&
      spawner.gameManager.isStartDelayActive == old(spawner.gameManager.isStartDelayActive) &&
      spawner.gameManager.elapsedTime == old(spawner.gameManager.elapsedTime) &&
      spawner.gameManager.timer == old(spawner.gameManager.timer)
    ensures var b := spawner.blockPool[k];
      old(b.active) && old(spawner.gameManager.isGameActive) && b.z <= playerZ ==>
        spawner.PoolView() == PoolState(old(spawner.PoolView()).flags[k := false], old(spawner.PoolView()).cursor) &&
        spawner.gameManager.score == old(spawner.gameManager.score) + Blocks.MissPenalty &&
        Acquire(spawner.PoolView()).slot.Some?
    ensures var b := spawner.blockPool[k];
      !(old(b.active) && old(spawner.gameManager.isGameActive) && b.z <= playerZ) ==>
        spawner.PoolView() == old(spawner.PoolView()) &&
        spawner.gameManager.score == old(spawner.gameManager.score)
  {
    var b := spawner.blockPool[k];
    ghost var p := spawner.PoolView();
    SlotsHoldDistinctBlocks(spawner, k);
    if b.active {
      b.Update(playerZ, dirZ, dt);
    }
    if old(b.active) && old(spawner.gameManager.isGameActive) && b.z <= playerZ {
      assert spawner.PoolView().flags == p.flags[k := false];
      AcquireNoneIffAllActive(spawner.PoolView());
    } else {
      assert spawner.PoolView().flags == p.flags;
    }
  }

  /** A collision of the block in pool slot `k` with an object tagged
      `otherTag`. The engine reports collisions only for blocks in play, so
      a free slot is left alone. A sword hit on a block in play earns
      exactly 10 points, and the slot stays taken: the pool is exactly as it
      was. Any other object changes neither the pool nor the score. */
  method BlockCollision(spawner: Spawning.BlockSpawner, k: nat, otherTag: string)
    requires spawner.Valid() && k < spawner.blockPool.Length
    requires spawner.gameManager.Valid()
    modifies spawner.gameManager
    ensures spawner.Valid() && spawner.gameManager.Valid()
    ensures spawner.gameManager.isGameActive == old(spawner.gameManager.isGameActive) &&
      spawner.gameManager.isStartDelayActive == old(spawner.gameManager.isStartDelayActive) &&
      spawner.gameManager.elapsedTime == old(spawner.gameManager.elapsedTime) &&
      spawner.gameManager.timer == old(spawner.gameManager.timer)
    ensures spawner.PoolView() == old(spawner.PoolView())
    ensures old(spawner.blockPool[k].active) && otherTag == Blocks.SwordTag ==>
      spawner.gameManager.score == old(spawner.gameManager.score) + Blocks.SwordBonus
    ensures !old(spawner.blockPool[k].active) || otherTag != Blocks.SwordTag ==>
      spawner.gameManager.score == old(spawner.gameManager.score)
  {
    var b := spawner.blockPool[k];
    if b.active {
      b.OnCollisionEnter(otherTag);
    }
  }

  /** One engine frame as far as the spawner and the block in slot `k` go:
      the spawner's frame runs, then the block's. Spawning never touches the
      session, so the spawner's frame leaves the score alone; the block's
      frame then costs 5 points on a miss and nothing otherwise. Both
      invariants, the spawner's and the session's, hold afterwards, so
      frames can follow one another. */
  method GameFrame(spawner: Spawning.BlockSpawner, k: nat, now: real, dt: real,
                   firstSpawnZ: real, secondSpawnZ: real, playerZ: real, dirZ: real)
    requires spawner.Valid() && k < spawner.blockPool.Length
    requires spawner.gameManager.Valid()
    modifies spawner`spawnRate, spawner`nextSpawnTime, spawner`gameTimeElapsed, spawner`currentBlockIndex
    modifies spawner.Repr, spawner.gameManager
    ensures spawner.Valid() && spawner.gameManager.Valid()
    ensures spawner.gameManager.score == old(spawner.gameManager.score) ||
            spawner.gameManager.score == old(spawner.gameManager.score) + Blocks.MissPenalty
    ensures spawner.gameManager.isGameActive == old(spawner.gameManager.isGameActive)
  {
    spawner.Update(now, dt, firstSpawnZ, secondSpawnZ);
    BlockFrame(spawner, k, playerZ, dirZ, dt);
  }

  /** No two slots hold the same block, so a change to the block in slot
      `k` is seen in slot `k` alone. */
  lemma SlotsHoldDistinctBlocks(spawner: Spawning.BlockSpawner, k: nat)
    requires spawner.Distinct() && k < spawner.blockPool.Length
    ensures forall j :: 0 <= j < spawner.blockPool.Length && j != k ==>
      spawner.blockPool[j] != spawner.blockPool[k]
  {
    forall j | 0 <= j < spawner.blockPool.Length && j != k
      ensures spawner.blockPool[j] != spawner.blockPool[k]
    {
      assert spawner.slotOf[spawner.blockPool[j]] == j;
    }
  }
}
