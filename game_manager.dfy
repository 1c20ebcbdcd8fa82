/** The game session: the round's state machine, its two clocks and the
    score accumulator. States: idle (neither flag set), pending start
    (`isStartDelayActive`), active (`isGameActive`), ended (back to neither
    flag, with the final score kept). The start delay, a coroutine in the
    game, is split into StartGame (which schedules it) and
    StartGameAfterDelay (what runs once the delay is over). */
module Session {

  /** The sum of a list of score deltas. */
  function Sum(deltas: seq<int>): int
  {
    if deltas == [] then 0 else deltas[0] + Sum(deltas[1..])
  }

  /** Appending a delta adds it to the sum. */
  lemma {:induction false} SumAppend(deltas: seq<int>, v: int)
    ensures Sum(deltas + [v]) == Sum(deltas) + v
  {
    if deltas != [] {
      assert (deltas + [v])[1..] == deltas[1..] + [v];
      SumAppend(deltas[1..], v);
    }
  }

  /** The summed score of a round made of the opening 0, +10 per sword hit
      and -5 per miss, in any order: ten per hit less five per miss. */
  lemma {:induction false} SumOfHitsAndMisses(deltas: seq<int>)
    requires forall i :: 0 <= i < |deltas| ==> deltas[i] == 0 || deltas[i] == 10 || deltas[i] == -5
    ensures Sum(deltas) == 10 * (multiset(deltas)[10] as int) - 5 * (multiset(deltas)[-5] as int)
  {
    if deltas != [] {
      assert deltas == [deltas[0]] + deltas[1..];
      assert multiset(deltas) == multiset([deltas[0]]) + multiset(deltas[1..]);
      SumOfHitsAndMisses(deltas[1..]);
    }
  }

  class GameManager {
    /** Length of a round in seconds (120 unless configured otherwise). */
    const gameDuration: real

    /** Seconds of active play since the round started; 0 between rounds. */
    var elapsedTime: real
    /** Seconds left in the round. */
    var timer: real
    var isGameActive: bool
    var isStartDelayActive: bool
    var score: int

    /** Every delta passed to UpdateScore since the last round started
        (a proof device: the source keeps only their running total). */
    ghost var roundDeltas: seq<int>

    /** The session invariant: the score is the sum of the deltas applied
        since the round started, and the elapsed time is 0 whenever no
        round is being played. */
    ghost predicate Valid()
      reads this
    {
      score == Sum(roundDeltas) &&
      (!isGameActive ==> elapsedTime == 0.0)
    }

    /** A fresh session: idle, nothing pending, score 0. */
    constructor (gameDuration: real)
      ensures Valid()
      ensures this.gameDuration == gameDuration
      ensures !isGameActive && !isStartDelayActive
      ensures elapsedTime == 0.0 && timer == 0.0 && score == 0 && roundDeltas == []
    {
      this.gameDuration := gameDuration;
      elapsedTime := 0.0;
      timer := 0.0;
      isGameActive := false;
      isStartDelayActive := false;
      score := 0;
      roundDeltas := [];
    }

    /** Requests a round. A request while a start is already pending is
        ignored; otherwise the start becomes pending and nothing else
        changes. */
    method StartGame()
      requires Valid()
      modifies this
      ensures Valid()
      ensures old(isStartDelayActive) ==> unchanged(this)
      ensures !old(isStartDelayActive) ==> isStartDelayActive
      ensures isGameActive == old(isGameActive) && elapsedTime == old(elapsedTime) && timer == old(timer)
      ensures score == old(score) && roundDeltas == old(roundDeltas)
    {
      if !isStartDelayActive {
        isStartDelayActive := true;
      }
    }

    /** What runs once the start delay is over: the round becomes active,
        the pending flag clears, the timer is set to the round's length and
        the score to 0. The elapsed time is left as it was. */
    method StartGameAfterDelay()
      requires Valid()
      modifies this
      ensures Valid()
      ensures isGameActive && !isStartDelayActive
      ensures timer == gameDuration && score == 0 && roundDeltas == [0]
      ensures elapsedTime == old(elapsedTime)
      ensures !old(isGameActive) ==> elapsedTime == 0.0 && timer + elapsedTime == gameDuration
    {
      isGameActive := true;
      isStartDelayActive := false;
      timer := gameDuration;
      score := 0;
      roundDeltas := [];
      UpdateScore(0);
    }

    /** One frame of the session clock. While a round is active the timer
        goes down by `dt` and the elapsed time up by `dt`; once the timer is
        at or below 0 the round ends. Otherwise nothing changes. */
    method Update(dt: real)
      requires Valid()
      modifies this
      ensures Valid()
      ensures !old(isGameActive) ==> unchanged(this)
      ensures old(isGameActive) ==> timer == old(timer) - dt
      ensures old(isGameActive) && timer > 0.0 ==> isGameActive && elapsedTime == old(elapsedTime) + dt
      ensures old(isGameActive) && timer <= 0.0 ==> !isGameActive && elapsedTime == 0.0
      ensures isGameActive ==> timer + elapsedTime == old(timer + elapsedTime)
      ensures isStartDelayActive == old(isStartDelayActive)
      ensures score == old(score) && roundDeltas == old(roundDeltas)
    {
      if isGameActive {
        timer := timer - dt;
        elapsedTime := elapsedTime + dt;
        if timer <= 0.0 {
          EndGame();
        }
      }
    }

    /** Ends the round: the round is no longer active and the elapsed time
        goes back to 0. The score, and with it the final score, stays the
        sum of the round's deltas. */
    method EndGame()
      requires Valid()
      modifies this
      ensures Valid()
      ensures !isGameActive && elapsedTime == 0.0
      ensures score == old(score) && roundDeltas == old(roundDeltas) && score == Sum(roundDeltas)
      ensures timer == old(timer) && isStartDelayActive == old(isStartDelayActive)
    {
      isGameActive := false;
      elapsedTime := 0.0;
    }

    /** The one way the score changes: add `value` to it. No other field
        changes. */
    method UpdateScore(value: int)
      requires Valid()
      modifies this
      ensures Valid()
      ensures score == old(score) + value
      ensures roundDeltas == old(roundDeltas) + [value]
      ensures elapsedTime == old(elapsedTime) && timer == old(timer)
      ensures isGameActive == old(isGameActive) && isStartDelayActive == old(isStartDelayActive)
    {
      SumAppend(roundDeltas, value);
      score := score + value;
      roundDeltas := roundDeltas + [value];
    }
  }

  /** A round played through: start, the delay, then frames until the frames
      run out or the timer does. In frame `i` the score first changes by
      `hits[i]`, then the clock ticks by `frames[i]`. The result `m` is the
      number of frames played. While the round runs, timer plus elapsed time
      stays the round's length; when it ends the flags clear and elapsed time
      is 0. Throughout, the score is the opening 0 plus exactly the deltas of
      the frames played. */
  method PlayRound(gm: GameManager, frames: seq<real>, hits: seq<int>) returns (m: nat)
    requires gm.Valid() && !gm.isGameActive && !gm.isStartDelayActive
    requires |hits| == |frames|
    modifies gm
    ensures m <= |frames|
    ensures m < |frames| ==> !gm.isGameActive
    ensures gm.Valid() && !gm.isStartDelayActive
    ensures gm.isGameActive ==> gm.timer + gm.elapsedTime == gm.gameDuration
    ensures !gm.isGameActive ==> gm.elapsedTime == 0.0
    ensures gm.roundDeltas == [0] + hits[..m]
    ensures gm.score == Sum([0] + hits[..m])
  {
    gm.StartGame();
    gm.StartGameAfterDelay();
    m := 0;
    while m < |frames| && gm.isGameActive
      invariant 0 <= m <= |frames|
      invariant gm.Valid() && !gm.isStartDelayActive
      invariant gm.isGameActive ==> gm.timer + gm.elapsedTime == gm.gameDuration
      invariant gm.roundDeltas == [0] + hits[..m]
    {
      gm.UpdateScore(hits[m]);
      gm.Update(frames[m]);
      assert hits[..m + 1] == hits[..m] + [hits[m]];
      m := m + 1;
    }
  }
}
