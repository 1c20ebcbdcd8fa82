/** The block pool's reuse policy, stated on values.
    A pool of `n` slots is seen as its sequence of "active" flags plus the
    rotating cursor. Acquiring a slot advances the cursor one step at a time,
    `(cursor + 1) % n`, at most `n` times, and stops at the first inactive
    slot. The class BlockSpawner (module Spawning) runs the same scan in
    place over its array of blocks and is proved against `Acquire` below. */
module Pool {

  datatype Option<T> = None | Some(value: T)

  /** What the pool looks like from outside: one active flag per slot, and
      the index of the slot handed out last. */
  datatype PoolState = PoolState(flags: seq<bool>, cursor: nat)

  /** A cursor is usable when it indexes a slot, or is 0 for an empty pool
      (the scan never runs on an empty pool, so 0 is never divided by). */
  predicate CursorOk(n: nat, cursor: nat)
  {
    if n == 0 then cursor == 0 else cursor < n
  }

  /** The slot visited at the `d`-th step (counting from 0) of a scan that
      starts from cursor `start`: the slot `d + 1` places further on,
      wrapping around the end of the pool. */
  function Probe(start: nat, d: nat, n: nat): (r: nat)
    requires start < n && d < n
    ensures r < n
  {
    if start + d + 1 < n then start + d + 1 else start + d + 1 - n
  }

  /** For `x` below `2 * n`, `x % n` is `x` or `x - n`. */
  lemma ModOfSmall(x: nat, n: nat)
    requires 0 < n && x < 2 * n
    ensures x % n == if x < n then x else x - n
  {
    if x >= n {
      assert x == n + (x - n);
      assert (x - n) / n == 0;
    }
  }

  /** The source's step `(cursor + 1) % n`, taken from the cursor the scan
      has reached before step `d`, lands on the `d`-th probe. */
  lemma StepReachesProbe(start: nat, d: nat, n: nat, cursor: nat)
    requires start < n && d < n
    requires d == 0 ==> cursor == start
    requires 0 < d ==> cursor == Probe(start, d - 1, n)
    ensures (cursor + 1) % n == Probe(start, d, n)
  {
    ModOfSmall(cursor + 1, n);
  }

  /** The last of the `n` probes is the starting cursor itself. */
  lemma ProbeWrapsToStart(start: nat, n: nat)
    requires start < n
    ensures Probe(start, n - 1, n) == start
  {
  }

  /** The `n` probes visit every slot: slot `j` is visited at step
      `ProbeStep(start, j, n)`. */
  function ProbeStep(start: nat, j: nat, n: nat): (d: nat)
    requires start < n && j < n
    ensures d < n && Probe(start, d, n) == j
  {
    if start < j then j - start - 1 else j + n - start - 1
  }

  /** The scan from step `d` on: the first step `e` in `[d, n)` whose probe
      finds an inactive slot, or None when every probed slot is active. */
  function ScanFrom(flags: seq<bool>, start: nat, d: nat): (r: Option<nat>)
    requires start < |flags| && d <= |flags|
    ensures r.Some? ==> d <= r.value < |flags| && !flags[Probe(start, r.value, |flags|)]
    ensures r.Some? ==> forall e :: d <= e < r.value ==> flags[Probe(start, e, |flags|)]
    ensures r.None? ==> forall e :: d <= e < |flags| ==> flags[Probe(start, e, |flags|)]
    decreases |flags| - d
  {
    if d == |flags| then None
    else if !flags[Probe(start, d, |flags|)] then Some(d)
    else ScanFrom(flags, start, d + 1)
  }

  /** When the first `d` probes find active slots and the next finds an
      inactive one, acquisition hands out that slot and leaves the cursor
      on it. */
  lemma AcquireStopsAt(p: PoolState, d: nat)
    requires p.cursor < |p.flags| && d < |p.flags|
    requires forall e :: 0 <= e < d ==> p.flags[Probe(p.cursor, e, |p.flags|)]
    requires !p.flags[Probe(p.cursor, d, |p.flags|)]
    ensures var slot := Probe(p.cursor, d, |p.flags|);
      Acquire(p) == Acquired(Some(slot), PoolState(p.flags, slot))
  {
    var r := ScanFrom(p.flags, p.cursor, 0);
    if r.None? {
      assert false;
    } else if r.value < d {
      assert false;
    } else if r.value > d {
      assert false;
    }
  }

  /** When every probe finds an active slot, acquisition hands out nothing
      and leaves the pool as it was. */
  lemma AcquireRunsThrough(p: PoolState)
    requires CursorOk(|p.flags|, p.cursor)
    requires |p.flags| > 0 ==> forall e :: 0 <= e < |p.flags| ==> p.flags[Probe(p.cursor, e, |p.flags|)]
    ensures Acquire(p) == Acquired(None, p)
  {
    if |p.flags| > 0 {
      var r := ScanFrom(p.flags, p.cursor, 0);
      if r.Some? {
        assert false;
      }
    }
  }

  /** Every slot is active. */
  predicate AllActive(flags: seq<bool>)
  {
    forall j :: 0 <= j < |flags| ==> flags[j]
  }

  /** The number of active slots. */
  function CountActive(flags: seq<bool>): (c: nat)
    ensures c <= |flags|
  {
    if flags == [] then 0 else (if flags[0] then 1 else 0) + CountActive(flags[1..])
  }

  /** The result of one acquisition: the slot handed out (if any) and the
      pool afterwards. The flags never change; only the cursor moves, to the
      slot found, and stays where it was when the pool is full (after `n`
      steps it is back at its start). */
  datatype Acquired = Acquired(slot: Option<nat>, pool: PoolState)

  function Acquire(p: PoolState): (r: Acquired)
    requires CursorOk(|p.flags|, p.cursor)
    ensures r.pool.flags == p.flags
    ensures CursorOk(|p.flags|, r.pool.cursor)
    ensures r.slot.Some? ==> r.slot.value < |p.flags| && !p.flags[r.slot.value]
    ensures r.slot.Some? ==> r.pool.cursor == r.slot.value
    ensures r.slot.None? ==> r.pool.cursor == p.cursor
  {
    if |p.flags| == 0 then Acquired(None, p)
    else
      match ScanFrom(p.flags, p.cursor, 0)
      case None =>
        Acquired(None, p)
      case Some(d) =>
        var slot := Probe(p.cursor, d, |p.flags|);
        Acquired(Some(slot), PoolState(p.flags, slot))
  }

  /** Acquisition fails exactly when every slot is active: the scan looks at
      each of the `n` slots once before it gives up. */
  lemma {:induction false} AcquireNoneIffAllActive(p: PoolState)
    requires CursorOk(|p.flags|, p.cursor)
    ensures Acquire(p).slot.None? <==> AllActive(p.flags)
  {
    var n := |p.flags|;
    if n > 0 {
      if Acquire(p).slot.None? {
        assert ScanFrom(p.flags, p.cursor, 0).None?;
        forall j | 0 <= j < n ensures p.flags[j] {
          var d := ProbeStep(p.cursor, j, n);
          assert p.flags[Probe(p.cursor, d, n)];
        }
      }
    }
  }

  /** The slot handed out is the first inactive one in cyclic order,
      starting just after the old cursor: every slot strictly between the
      old cursor and the one found (going round) is active. */
  lemma AcquireFirstInCyclicOrder(p: PoolState, e: nat)
    requires CursorOk(|p.flags|, p.cursor) && |p.flags| > 0
    requires Acquire(p).slot.Some?
    requires e < |p.flags| && Probe(p.cursor, e, |p.flags|) == Acquire(p).slot.value
    ensures forall k :: 0 <= k < e ==> p.flags[Probe(p.cursor, k, |p.flags|)]
  {
    var n := |p.flags|;
    var d := ScanFrom(p.flags, p.cursor, 0).value;
    ProbeInjective(p.cursor, d, e, n);
  }

  /** Distinct steps probe distinct slots. */
  lemma ProbeInjective(start: nat, d: nat, e: nat, n: nat)
    requires start < n && d < n && e < n
    requires Probe(start, d, n) == Probe(start, e, n)
    ensures d == e
  {
  }

  /** SpawnBlock on values: acquire a slot and, if one was found, switch it
      on. No other slot changes. */
  function Spawn(p: PoolState): (q: PoolState)
    requires CursorOk(|p.flags|, p.cursor)
    ensures |q.flags| == |p.flags| && CursorOk(|q.flags|, q.cursor)
  {
    var a := Acquire(p);
    match a.slot
    case None => a.pool
    case Some(s) => PoolState(p.flags[s := true], a.pool.cursor)
  }

  /** A spawn attempt switches on exactly the slot acquisition hands out,
      which was inactive, and leaves the cursor on it; no other slot
      changes. When nothing is handed out the pool stays as it was. */
  lemma SpawnChangesOnlyChosen(p: PoolState)
    requires CursorOk(|p.flags|, p.cursor)
    ensures Acquire(p).slot.None? ==> Spawn(p) == p
    ensures Acquire(p).slot.Some? ==>
      var s := Acquire(p).slot.value;
      !p.flags[s] && Spawn(p).flags[s] && Spawn(p).cursor == s &&
      forall j :: 0 <= j < |p.flags| && j != s ==> Spawn(p).flags[j] == p.flags[j]
  {
  }

  /** `k` spawn attempts in a row. */
  function SpawnTimes(p: PoolState, k: nat): (q: PoolState)
    requires CursorOk(|p.flags|, p.cursor)
    ensures |q.flags| == |p.flags| && CursorOk(|q.flags|, q.cursor)
    decreases k
  {
    if k == 0 then p else SpawnTimes(Spawn(p), k - 1)
  }

  /** Up to two attempts, unrolled. */
  lemma SpawnTimesStep(p: PoolState, k: nat)
    requires CursorOk(|p.flags|, p.cursor) && k <= 2
    ensures SpawnTimes(p, k) == if k == 0 then p else if k == 1 then Spawn(p) else Spawn(Spawn(p))
  {
    if k > 0 {
      assert SpawnTimes(p, k) == SpawnTimes(Spawn(p), k - 1);
    }
  }

  /** Switching on an inactive slot adds exactly one active slot. */
  lemma {:induction false} CountActivate(flags: seq<bool>, i: nat)
    requires i < |flags| && !flags[i]
    ensures CountActive(flags[i := true]) == CountActive(flags) + 1
  {
    if i > 0 {
      assert flags[i := true][1..] == flags[1..][i - 1 := true];
      CountActivate(flags[1..], i - 1);
    } else {
      assert flags[i := true][1..] == flags[1..];
    }
  }

  /** A spawn attempt adds exactly one active block, unless every slot was
      already active, in which case nothing changes. */
  lemma SpawnCount(p: PoolState)
    requires CursorOk(|p.flags|, p.cursor)
    ensures CountActive(Spawn(p).flags) == CountActive(p.flags) + (if AllActive(p.flags) then 0 else 1)
    ensures AllActive(p.flags) ==> Spawn(p) == p
  {
    AcquireNoneIffAllActive(p);
    var a := Acquire(p);
    if a.slot.Some? {
      CountActivate(p.flags, a.slot.value);
    }
  }

  /** `k` attempts activate at most `k` blocks and never more than the pool
      holds; attempts made while the pool is full change nothing. */
  lemma {:induction false} SpawnTimesCount(p: PoolState, k: nat)
    requires CursorOk(|p.flags|, p.cursor)
    ensures CountActive(p.flags) <= CountActive(SpawnTimes(p, k).flags) <= CountActive(p.flags) + k
    decreases k
  {
    if k > 0 {
      SpawnCount(p);
      SpawnTimesCount(Spawn(p), k - 1);
    }
  }

  /** Active slots stay active: spawning only ever switches slots on. */
  lemma {:induction false} SpawnTimesKeepsActive(p: PoolState, k: nat, j: nat)
    requires CursorOk(|p.flags|, p.cursor)
    requires j < |p.flags| && p.flags[j]
    ensures SpawnTimes(p, k).flags[j]
    decreases k
  {
    if k > 0 {
      SpawnTimesKeepsActive(Spawn(p), k - 1, j);
    }
  }
}
