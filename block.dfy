/** A pooled block flying at the player. Only the depth axis is kept: the
    block's `z`, the player's `z` and the z-part of the unit direction to the
    player, which the caller supplies. A block that reaches the player's
    depth costs 5 points and switches itself off (back to the pool); a sword
    that touches it earns 10 points and leaves it where it is. Score changes
    go through the session's UpdateScore. */
module Blocks {
  import Session

  /** Score change for a block that gets past the player. */
  const MissPenalty: int := -5
  /** Score change for a block touched by the sword. */
  const SwordBonus: int := 10
  /** The tag that marks the sword. */
  const SwordTag: string := "Sword"

  /** A block's speed when the round has run for `elapsed` seconds: its base
      speed plus one unit per 20 seconds. The same for every block with the
      same base speed, whatever it moved at before. */
  function SpeedAt(baseSpeed: real, elapsed: real): (s: real)
    ensures elapsed >= 0.0 ==> s >= baseSpeed
  {
    baseSpeed + elapsed / 20.0
  }

  /** Blocks never slow down as the round goes on. */
  lemma SpeedGrowsWithTime(baseSpeed: real, e1: real, e2: real)
    requires e1 <= e2
    ensures SpeedAt(baseSpeed, e1) <= SpeedAt(baseSpeed, e2)
  {
  }

  /** Forty seconds into a round a block flies two units faster than its
      base speed. */
  lemma SpeedAtForty(baseSpeed: real)
    ensures SpeedAt(baseSpeed, 40.0) == baseSpeed + 2.0
  {
  }

  class Block {
    /** Speed at the start of a round (5 unless configured otherwise). */
    const baseSpeed: real
    var currentSpeed: real
    /** Depth of the block. */
    var z: real
    /** Whether the block is in play; an inactive block is free in the pool. */
    var active: bool
    /** The session the block reports to; set when the block is spawned. */
    var gameManager: Session.GameManager?

    /** A fresh copy of the block template: in play, not yet told which
        session it belongs to. */
    constructor (baseSpeed: real, z: real)
      ensures this.baseSpeed == baseSpeed && this.z == z
      ensures active && currentSpeed == 0.0 && gameManager == null
    {
      this.baseSpeed := baseSpeed;
      this.z := z;
      currentSpeed := 0.0;
      active := true;
      gameManager := null;
    }

    /** Switches the block on or off. */
    method SetActive(value: bool)
      modifies this`active
      ensures active == value
    {
      active := value;
    }

    /** Speed set-up when the block first runs: its base speed. */
    method Start()
      modifies this`currentSpeed
      ensures currentSpeed == baseSpeed
    {
      currentSpeed := baseSpeed;
    }

    /** Tells the block which session to report to. */
    method SetGameManager(manager: Session.GameManager)
      modifies this`gameManager
      ensures gameManager == manager
    {
      gameManager := manager;
    }

    /** One frame of the block. While the round is inactive nothing changes.
        Otherwise the speed becomes SpeedAt(base, elapsed time), the block
        moves `dirZ * speed * dt` in depth, and if it is then at or behind
        the player's depth the score drops by exactly 5 and the block goes
        out of play. Otherwise the session is untouched. */
    method Update(playerZ: real, dirZ: real, dt: real)
      requires gameManager != null && gameManager.Valid()
      modifies this, gameManager
      ensures gameManager == old(gameManager) && gameManager.Valid()
      ensures !old(gameManager.isGameActive) ==> unchanged(this) && unchanged(gameManager)
      ensures old(gameManager.isGameActive) ==>
        currentSpeed == SpeedAt(baseSpeed, old(gameManager.elapsedTime)) &&
        z == old(z) + dirZ * currentSpeed * dt
      ensures old(gameManager.isGameActive) && z <= playerZ ==>
        !active &&
        gameManager.score == old(gameManager.score) + MissPenalty &&
        gameManager.roundDeltas == old(gameManager.roundDeltas) + [MissPenalty]
      ensures old(gameManager.isGameActive) && z > playerZ ==>
        active == old(active) && unchanged(gameManager)
      ensures gameManager.isGameActive == old(gameManager.isGameActive)
      ensures gameManager.elapsedTime == old(gameManager.elapsedTime) && gameManager.timer == old(gameManager.timer)
      ensures gameManager.isStartDelayActive == old(gameManager.isStartDelayActive)
    {
      if !gameManager.isGameActive {
        return;
      }
      currentSpeed := baseSpeed + gameManager.elapsedTime / 20.0;
      z := z + dirZ * currentSpeed * dt;
      if z <= playerZ {
        gameManager.UpdateScore(MissPenalty);
        active := false;
      }
    }

    /** Contact with another object. The sword (tag "Sword") earns exactly
        10 points and leaves the block in play; any other object changes
        nothing. The round's state is not consulted. */
    method OnCollisionEnter(otherTag: string)
      requires otherTag == SwordTag ==> gameManager != null && gameManager.Valid()
      modifies gameManager
      ensures unchanged(this)
      ensures otherTag == SwordTag ==>
        gameManager.Valid() &&
        gameManager.score == old(gameManager.score) + SwordBonus &&
        gameManager.roundDeltas == old(gameManager.roundDeltas) + [SwordBonus] &&
        gameManager.isGameActive == old(gameManager.isGameActive) &&
        gameManager.isStartDelayActive == old(gameManager.isStartDelayActive) &&
        gameManager.elapsedTime == old(gameManager.elapsedTime) && gameManager.timer == old(gameManager.timer)
      ensures otherTag != SwordTag ==> gameManager == null || unchanged(gameManager)
    {
      if otherTag == SwordTag {
        gameManager.UpdateScore(SwordBonus);
      }
    }
  }
}
