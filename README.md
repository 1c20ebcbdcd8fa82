# Saber Slash VR: block pool, spawn cadence, session and block scoring

This project models the game logic of a VR arcade game. Blocks fly at the
player, who slices them with a sword. Three components are covered:

- **BlockSpawner** (`Spawning.BlockSpawner`) keeps a fixed pool of block
  objects that is made once. A cursor steps round the pool to hand out free
  blocks. Each frame the spawner may spawn, on a period that ramps down to a
  floor of 0.3 seconds.
- **GameManager** (`Session.GameManager`) is the round's state machine:
  idle, then pending start, then active, then ended. It owns the
  countdown timer, the elapsed time and the score. Apart from the reset to 0
  when a round starts (Assets/Scripts/GameManager.cs:49), `UpdateScore` is
  the only way the score changes.
- **Block** (`Blocks.Block`) is a pooled block. Each frame it sets its
  speed from the round's elapsed time and moves toward the player. A block
  that gets past the player costs 5 points and goes back to the pool. A
  sword hit earns 10 points.

All three are written as classes whose methods update fields in place. The
spawner's pool is an `array` of `Block` objects, so a block that switches
itself off is seen at once as a free slot by the spawner. The spawner's
methods are proved against value-level specifications:

- module `Pool` states the pool as a sequence of active flags plus the
  cursor. It defines one acquisition (`Acquire`), one spawn attempt
  (`Spawn`) and `k` attempts (`SpawnTimes`).
- module `Cadence` states one spawner frame on the three timers (`Tick`).
  A frame is composed of the time-based spawn check (`SpawnCheck`), the ramp
  (`RampCheck`) and the elapsed-time spawn check, in the source's order.

Module `Arcade` puts the components together. A block's miss frees exactly
its own pool slot and lowers the session score by 5. A sword hit raises the
score by 10 and leaves the pool as it was.

Times are `real` numbers. The engine's clock (`Time.time`) and frame time
(`Time.deltaTime`) are passed in as the parameters `now` and `dt`. The
delayed start, a coroutine in the game, is split in two:

- `StartGame` schedules the start;
- `StartGameAfterDelay` is what runs once the 10-second delay is over.

A block's movement keeps only the depth axis. The caller supplies the
depth component `dirZ` of the unit direction to the player.

Behaviour of the code that a reader might not expect, kept as written:

- A sword hit does not switch the block off. The comment at
  Assets/Scripts/BlockMovement.cs:49 says the block is destroyed, but the
  code at line 50 only adds 10 points, so repeated contact can score again.
  `Arcade.BlockCollision` proves that the pool is unchanged by a hit.
- The elapsed time is reset only by `EndGame`
  (Assets/Scripts/GameManager.cs:88). It is not reset when a round starts
  (lines 42-50). A restart requested while a round is still active keeps the
  elapsed time. Then `timer + elapsedTime == gameDuration` holds only for a
  round that starts from the idle state (`StartGameAfterDelay`'s
  postcondition).
- A block's speed is set to its base value only in `Start`
  (Assets/Scripts/BlockMovement.cs:10-13), which the engine runs once per
  object, not each time the pool switches the block on again. Every active
  frame then overwrites the speed with `base + elapsed / 20` (line 31).
- The second spawn check (Assets/Scripts/BlockSpawner.cs:67) compares the
  round's elapsed time with `nextSpawnTime`, which is a clock reading. Both
  checks are kept. A frame makes two spawn attempts only when the elapsed
  time is ahead of the clock (`Cadence.TwoAttemptsInOneFrame`;
  `Cadence.OpenTick` bounds the count at two). Play never gets there: the
  elapsed time adds up the same frame times as the clock, and only after the
  10-second start delay (Assets/Scripts/GameManager.cs:41, 62). With the
  elapsed time at most the clock and a positive period,
  `Cadence.SecondCheckDormant` shows the second check never fires, so in
  play it is dead code.

## Model

| member | source | states |
|---|---|---|
| Pool.StepReachesProbe | Assets/Scripts/BlockSpawner.cs:104-106 | the loop's `(cursor + 1) % n`, taken at step `d`, visits exactly the `d`-th probe slot |
| Pool.ProbeWrapsToStart | Assets/Scripts/BlockSpawner.cs:104-106 | after `n` steps the cursor is back on the slot it started from |
| Pool.ProbeInjective | Assets/Scripts/BlockSpawner.cs:104-106 | distinct steps of one scan visit distinct slots |
| Pool.ScanFrom | Assets/Scripts/BlockSpawner.cs:104-111 | the scan finds the first step whose slot is inactive, with every earlier probed slot active; it finds none only when every remaining probed slot is active |
| Pool.Acquire | Assets/Scripts/BlockSpawner.cs:101-116 | acquisition changes no flag, keeps the cursor in range, hands out only an inactive slot and leaves the cursor on it, and leaves the cursor where it was when nothing is found |
| Pool.AcquireStopsAt | Assets/Scripts/BlockSpawner.cs:104-110 | when the first `d` probes are active and the next is inactive, that slot is handed out and the cursor rests on it |
| Pool.AcquireRunsThrough | Assets/Scripts/BlockSpawner.cs:104-115 | when all `n` probes are active, nothing is handed out and the pool is unchanged |
| Pool.AcquireNoneIffAllActive | Assets/Scripts/BlockSpawner.cs:104-115 | acquisition fails exactly when every slot is active (both directions) |
| Pool.AcquireFirstInCyclicOrder | Assets/Scripts/BlockSpawner.cs:104-111 | the slot handed out is the first inactive one in cyclic order after the old cursor |
| Pool.Spawn | Assets/Scripts/BlockSpawner.cs:79-89 | a spawn attempt on values keeps the pool's size and leaves a usable cursor; which slot it changes is stated by `Pool.SpawnChangesOnlyChosen` |
| Pool.SpawnTimes | Assets/Scripts/BlockSpawner.cs:53-71 | `k` spawn attempts in a row keep the pool's size and a usable cursor; their effect on the active blocks is stated by `Pool.SpawnTimesCount` and `Pool.SpawnTimesKeepsActive` |
| Pool.SpawnChangesOnlyChosen | Assets/Scripts/BlockSpawner.cs:79-97 | a spawn attempt switches on exactly the acquired slot (which was inactive) and no other; when the pool is full nothing changes |
| Pool.CountActivate | Assets/Scripts/BlockSpawner.cs:89 | switching on an inactive slot adds exactly one active block |
| Pool.SpawnCount | Assets/Scripts/BlockSpawner.cs:79-89 | a spawn attempt adds one active block, or none and no change when every slot is already active |
| Pool.SpawnTimesCount | Assets/Scripts/BlockSpawner.cs:53-71 | `k` attempts add between 0 and `k` active blocks |
| Pool.SpawnTimesKeepsActive | Assets/Scripts/BlockSpawner.cs:79-89 | spawning never switches a block off |
| Cadence.RampedRate | Assets/Scripts/BlockSpawner.cs:62 | a ramp step gives `max(0.3, rate - step)`: at least 0.3, and never above the old period when the old period is at least 0.3 and the step is non-negative |
| Cadence.RampTimes | Assets/Scripts/BlockSpawner.cs:58-64 | repeated ramp steps from a period at or above 0.3 with a non-negative step keep the period between 0.3 and where it started, and after one step it is never below 0.3 |
| Cadence.SpawnCheck | Assets/Scripts/BlockSpawner.cs:53-57 | a spawn check (the same rule as lines 67-71) adds one attempt exactly when its clock has reached `nextSpawnTime`, and never changes the period or the ramp accumulator |
| Cadence.RampCheck | Assets/Scripts/BlockSpawner.cs:58-64 | the ramp check makes no attempt and keeps the next spawn time; the period stays or takes one clamped step, and a changed period comes with a reset accumulator |
| Cadence.Tick | Assets/Scripts/BlockSpawner.cs:45-74 | one spawner frame makes at most two spawn attempts, and its period is the old one or one ramp step below it |
| Cadence.RampTimesClosedForm | Assets/Scripts/BlockSpawner.cs:58-64 | after `k` ramp steps the period is `max(0.3, rate - k * step)` |
| Cadence.EightRampsFromDefault | Assets/Scripts/BlockSpawner.cs:11-13 | with the default tuning, eight ramp steps bring the period from 1.0 to 0.76 seconds |
| Cadence.GatedTickIsIdle | Assets/Scripts/BlockSpawner.cs:47-49 | a frame while the round is inactive or past 118 seconds changes no timer and makes no spawn attempt |
| Cadence.OpenTick | Assets/Scripts/BlockSpawner.cs:51-71 | an open frame makes at most two attempts, at least one when the clock has reached `nextSpawnTime`, none when neither check is due; the ramp accumulator grows by `dt` or is reset to 0 |
| Cadence.TwoAttemptsInOneFrame | Assets/Scripts/BlockSpawner.cs:53-71 | with the clock due and the round's elapsed time past the newly scheduled spawn time, one frame makes both spawn attempts |
| Cadence.TickRateBounds | Assets/Scripts/BlockSpawner.cs:58-64 | across a frame the period never grows and stays at least 0.3, and a changed period comes with a reset accumulator |
| Cadence.SecondCheckDormant | Assets/Scripts/BlockSpawner.cs:67-71 | while the elapsed time is at most the clock and the period is positive, a frame makes at most one spawn attempt |
| Spawning.FrameSpawnsAtMostTwo | Assets/Scripts/BlockSpawner.cs:45-74 | a spawner frame switches on at most two blocks, and none while the round is inactive or past the cutoff |
| Spawning.BlockSpawner.constructor | Assets/Scripts/BlockSpawner.cs:23-30 | start-up sets the period to its initial value, schedules the first spawn one period after `now` and fills the pool with inactive blocks |
| Spawning.BlockSpawner.InitializeBlockPool | Assets/Scripts/BlockSpawner.cs:32-42 | the pool holds exactly `poolSize` new blocks, each one inactive and in a slot of its own |
| Spawning.BlockSpawner.GetPooledBlock | Assets/Scripts/BlockSpawner.cs:101-116 | the in-place scan returns the block and leaves the cursor exactly as `Pool.Acquire` does, and changes no block |
| Spawning.BlockSpawner.SpawnBlock | Assets/Scripts/BlockSpawner.cs:76-100 | the pool afterwards is `Pool.Spawn` of the pool before; the block switched on is moved to the depth `spawnZ` of its spawn point, reports to the spawner's session and keeps its speed; every other block is untouched, so every block in play still reports to the session |
| Spawning.BlockSpawner.PlaceBlock | Assets/Scripts/BlockSpawner.cs:86-96 | the block handed out goes to the spawn point's depth, is switched on and reports to the spawner's session; its speed is kept |
| Spawning.BlockSpawner.SpawnIfDue | Assets/Scripts/BlockSpawner.cs:53-57 | a spawn check (also used for lines 67-71) updates the timers as `Cadence.SpawnCheck` and makes the pool take that many spawn attempts; only blocks it switches on change, in their flag, session and depth, which becomes the spawn point's `spawnZ` |
| Spawning.BlockSpawner.Update | Assets/Scripts/BlockSpawner.cs:45-74 | the timers become `Cadence.Tick`'s and the pool takes exactly that frame's number of spawn attempts; every block keeps its speed, only blocks switched on change, each moved to the depth of one of the frame's two spawn points, and every block in play reports to the session; a gated frame changes nothing at all |
| Spawning.BlockSpawner.OpenFrame | Assets/Scripts/BlockSpawner.cs:51-71 | the frame of an active round before the cutoff runs the source's three steps in order: timers and pool come out as the clock-based spawn check, then the ramp, then the elapsed-time spawn check; only blocks switched on change, each moved to the depth of the spawn point of the check that switched it on |
| Spawning.BlockSpawner.ClockSpawnAndRamp | Assets/Scripts/BlockSpawner.cs:51-64 | the accumulator gains `dt`, then the clock-based spawn check and the ramp check act as `Cadence.SpawnCheck` and `Cadence.RampCheck` say, and the pool takes that check's spawn attempts; only blocks switched on change, moved to the spawn point's depth `spawnZ` |
| Spawning.BlockSpawner.RampIfDue | Assets/Scripts/BlockSpawner.cs:58-64 | once the accumulator reaches the interval it is reset to 0 and the period takes one clamped ramp step; otherwise nothing changes |
| Session.SumAppend | Assets/Scripts/GameManager.cs:98 | adding a delta to the score adds it to the sum of the round's deltas |
| Session.SumOfHitsAndMisses | Assets/Scripts/GameManager.cs:49-50 | a round's score made of the opening 0, sword hits and misses is ten per hit minus five per miss, in any order |
| Session.GameManager.constructor | Assets/Scripts/GameManager.cs:23-27 | a new session is idle with nothing pending, elapsed time 0 and score 0 |
| Session.GameManager.StartGame | Assets/Scripts/GameManager.cs:29-36 | a start request while one is pending changes nothing; otherwise only the pending flag is set |
| Session.GameManager.StartGameAfterDelay | Assets/Scripts/GameManager.cs:38-54 | the round becomes active with nothing pending, the timer at the round's length and the score 0; elapsed time is not reset, and from idle timer plus elapsed time is the round's length |
| Session.GameManager.Update | Assets/Scripts/GameManager.cs:55-69 | an inactive session is unchanged; an active frame lowers the timer by `dt` and raises elapsed time by `dt`, ending the round once the timer is at or below 0; the score is untouched and timer plus elapsed time is kept while active |
| Session.GameManager.EndGame | Assets/Scripts/GameManager.cs:80-90 | the round is no longer active, elapsed time is 0, and the final score is kept and equals the sum of the round's deltas |
| Session.GameManager.UpdateScore | Assets/Scripts/GameManager.cs:96-100 | the score goes up by exactly `value` and no other session field changes |
| Session.PlayRound | Assets/Scripts/GameManager.cs:29-69 | a whole round from idle over `m` frames, stopping early only when the round has ended: timer plus elapsed time stays the round's length while active, elapsed time is 0 once ended, and the final score is the sum of the opening 0 and exactly the deltas of the `m` frames played |
| Blocks.SpeedAt | Assets/Scripts/BlockMovement.cs:31 | a block's speed is never below its base speed once the round has started |
| Blocks.SpeedGrowsWithTime | Assets/Scripts/BlockMovement.cs:31 | later in the round blocks are never slower |
| Blocks.SpeedAtForty | Assets/Scripts/BlockMovement.cs:31 | forty seconds into a round the speed is base plus 2 |
| Blocks.Block.constructor | Assets/Scripts/BlockSpawner.cs:39 | a new copy of the block template is in play, at the given depth, with speed 0 and no session yet |
| Blocks.Block.SetActive | Assets/Scripts/BlockSpawner.cs:40 | the block is in play exactly when `value` is true (the same call switches it on at line 89 and off at BlockMovement.cs:41) |
| Blocks.Block.Start | Assets/Scripts/BlockMovement.cs:10-17 | the speed is set to the base speed |
| Blocks.Block.SetGameManager | Assets/Scripts/BlockMovement.cs:20-23 | the block reports to the given session afterwards |
| Blocks.Block.Update | Assets/Scripts/BlockMovement.cs:25-43 | nothing changes while the round is inactive; otherwise the speed is `base + elapsed / 20` whatever it was, the block moves by `dirZ * speed * dt`, and a block at or behind the player costs exactly 5 points and goes inactive, while any other block leaves the session untouched |
| Blocks.Block.OnCollisionEnter | Assets/Scripts/BlockMovement.cs:45-53 | a sword contact adds exactly 10 points and leaves the block as it was (still active); any other contact changes nothing; the round's state is not consulted |
| Arcade.SlotsHoldDistinctBlocks | Assets/Scripts/BlockSpawner.cs:34-41 | no block sits in two pool slots |
| Arcade.BlockFrame | Assets/Scripts/BlockMovement.cs:25-43 | a block's miss frees exactly its own pool slot, keeps the cursor, lowers the score by 5 and leaves a free block for the next spawn; any other frame leaves the pool and the score as they were; the session's clocks and flags do not change |
| Arcade.BlockCollision | Assets/Scripts/BlockMovement.cs:45-53 | a sword hit on a pooled block in play adds exactly 10 points and leaves the pool, and so the block's slot, as it was; the session's clocks and flags do not change |
| Arcade.GameFrame | Assets/Scripts/BlockSpawner.cs:45-74 | a spawner frame followed by a block's frame keeps both invariants, so frames can follow one another; the score changes by 0 or by exactly -5 and the round's active flag does not change |

## Left out

- Assets/Scripts/SliceMechanics.cs is not part of this model. It wraps an external mesh-slicing library and engine physics (line casts, rigid bodies, explosion forces, delayed destruction), which is floating-point vector work. It also switches the sliced object off (line 58). For a pooled block on the sliceable layer, that frees its pool slot without any change to the score. That switch-off is not modelled, so in the model only a miss (Assets/Scripts/BlockMovement.cs:41) frees a slot, and `Arcade.BlockCollision` keeps the slot taken after a sword hit.
- Vector movement in `Block.Update` (normalised direction and `Translate`): only the depth axis is kept, with the direction's depth component `dirZ` supplied by the caller.
- Random spawn-point choice (Assets/Scripts/BlockSpawner.cs:84) is a parameter: each spawn check is given the depth of the spawn point it would use (`spawnZ`; `firstSpawnZ` and `secondSpawnZ` in a frame), and only that depth is copied (line 87). The spawn point's other position axes do matter in the source: the block's direction is taken from its full position (Assets/Scripts/BlockMovement.cs:34), so they set the direction's depth component, and with it when the block crosses the player. They reach the model only through the caller-supplied `dirZ` of `Block.Update`. The rotation (line 88) has no effect, because `Translate` moves the block in world space (Assets/Scripts/BlockMovement.cs:35). An empty spawn-point array, which would fail in the source, is not modelled.
- Coroutine scheduling and the engine clock: `WaitForSeconds(10)` is the split between `StartGame` and `StartGameAfterDelay`, and `Time.time`/`Time.deltaTime` are the parameters `now` and `dt`. The engine's frame order, which calls each component's `Update` once per frame and calls `Update` and collisions only on active objects, is left to the caller. `Arcade.BlockFrame` and `Arcade.BlockCollision` state the second part.
- Floating-point rounding: timers, speeds and the spawn period are exact reals, so, for example, `1.0 - 8 * 0.03` is exactly 0.76.
- UI and engine glue are left out because they do not change game state: the timer, score and final-score texts, the intro, score-card and end-menu panels, `Debug.Log`, `Application.Quit` (`ExitGame`), `Instantiate` (a new `Block` stands in for the prefab copy) and `GameObject.Find("Player")` (the player's depth is a parameter).
- Spawning.BlockSpawner.SpawnBlock: the source checks that the spawned object has a `Block` component before wiring the session. Pooled objects here are `Block`s, so that null branch does not arise.
- Session.GameManager.UpdateScore: the score is an unbounded integer. The source's `int score` (Assets/Scripts/GameManager.cs:27, 98) wraps around at 2^31, which would take more than 200 million sword hits in one round; the wrap is not modelled.
- The pool size is a `nat`. A negative `poolSize`, which would fail when the array is made in the source, is not modelled.
- Session.GameManager.Update: the timer-plus-elapsed invariant is stated for the frame alone, as `timer + elapsedTime` kept while active. That the sum equals `gameDuration` is stated only for rounds started from idle (`StartGameAfterDelay`, `PlayRound`), because a restart during an active round keeps the old elapsed time.
