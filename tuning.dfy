/**
 * The thread-count tuning phase `optimization` of main.cpp.
 *
 * Round t runs t workers, each over the next chunk of CHUNK candidates, so
 * the k-th worker ever started searches `[CHUNK * k, CHUNK * (k + 1))`. The
 * phase stops as soon as a worker has published a result, or when the
 * per-worker time of a round is strictly greater than that of the round
 * before; in that case it settles on one thread fewer.
 *
 * The wall clock is not modelled: `costs[t - 1]` is the per-worker time the
 * caller observed for round t.
 */
module Tuning {
  import opened Patcher
  import opened Search

  /** The number of candidates each tuning worker searches. */
  const CHUNK: nat := 30_000_000

  /** A bound on the rounds under which the 64-bit cursor cannot overflow. */
  const MAX_ROUNDS: nat := 1_000_000

  /** The number of chunks handed out in rounds 1 .. t - 1 (round u runs u workers). */
  function ChunksBefore(t: nat): nat
  {
    if t <= 1 then 0 else ChunksBefore(t - 1) + (t - 1)
  }

  /** The number of chunks before round `t` is the triangular number t(t-1)/2. */
  lemma {:induction false} ChunksBeforeClosedForm(t: nat)
    ensures 2 * ChunksBefore(t) == t * (t - 1)
  {
    if t > 1 {
      ChunksBeforeClosedForm(t - 1);
      assert t * (t - 1) == (t - 1) * (t - 2) + 2 * (t - 1);
    }
  }

  /** The chunk number of worker `j` of round `t`. */
  function ChunkIndex(t: nat, j: nat): nat
  {
    ChunksBefore(t) + j
  }

  /** Every chunk of a later round comes after every chunk of an earlier one. */
  lemma {:induction false} ChunksBeforeGrows(t1: nat, t2: nat)
    requires 1 <= t1 < t2
    ensures ChunksBefore(t1) + t1 <= ChunksBefore(t2)
    decreases t2
  {
    if t1 + 1 < t2 {
      ChunksBeforeGrows(t1, t2 - 1);
    }
  }

  /**
   * Chunks are numbered in the order the workers start: by round, then by
   * worker within the round. In particular two different workers never get
   * the same chunk.
   */
  lemma ChunkOrder(t1: nat, j1: nat, t2: nat, j2: nat)
    requires j1 < t1 && j2 < t2
    ensures ChunkIndex(t1, j1) < ChunkIndex(t2, j2) <==> t1 < t2 || (t1 == t2 && j1 < j2)
    ensures ChunkIndex(t1, j1) == ChunkIndex(t2, j2) <==> t1 == t2 && j1 == j2
  {
    if t1 < t2 {
      ChunksBeforeGrows(t1, t2);
    } else if t2 < t1 {
      ChunksBeforeGrows(t2, t1);
    }
  }

  /** The worker that gets chunk `k`, searching from round `t` on. */
  function ChunkOwnerFrom(k: nat, t: nat): (owner: (nat, nat))
    requires 1 <= t && ChunksBefore(t) <= k
    ensures t <= owner.0 && owner.1 < owner.0
    ensures ChunkIndex(owner.0, owner.1) == k
    decreases k - ChunksBefore(t)
  {
    if k < ChunksBefore(t) + t then (t, k - ChunksBefore(t))
    else ChunkOwnerFrom(k, t + 1)
  }

  /**
   * Every chunk number belongs to some worker: the chunks of the rounds are
   * contiguous from chunk 0 and leave no gap.
   */
  function ChunkOwner(k: nat): (owner: (nat, nat))
    ensures 1 <= owner.0 && owner.1 < owner.0
    ensures ChunkIndex(owner.0, owner.1) == k
  {
    ChunkOwnerFrom(k, 1)
  }

  /** Within MAX_ROUNDS rounds the cursor stays below 2^64. */
  lemma CursorFits(t: nat)
    requires t <= MAX_ROUNDS + 1
    ensures CHUNK * ChunksBefore(t) <= SENTINEL
  {
    var last := MAX_ROUNDS + 1;
    ChunksBeforeClosedForm(last);
    assert ChunksBefore(last) == 500_000_500_000;
    if 1 <= t < last {
      ChunksBeforeGrows(t, last);
    }
    assert ChunksBefore(t) <= 500_000_500_000;
  }

  /** The per-worker time of round `t` exceeds that of round t - 1. */
  predicate RoseAt(costs: seq<nat>, t: nat)
    requires 2 <= t <= |costs|
  {
    costs[t - 2] < costs[t - 1]
  }

  /** Some round from `t` on, among the rounds `costs` covers, is slower than the one before it. */
  predicate HasRiseFrom(costs: seq<nat>, t: nat)
  {
    exists u :: t <= u <= |costs| && 2 <= u && RoseAt(costs, u)
  }

  predicate HasRise(costs: seq<nat>)
  {
    HasRiseFrom(costs, 2)
  }

  /** The first round, from `t` on, that is slower than the one before it. */
  function FirstRiseFrom(costs: seq<nat>, t: nat): (r: nat)
    requires 2 <= t && HasRiseFrom(costs, t)
    ensures t <= r <= |costs| && RoseAt(costs, r)
    ensures forall u :: t <= u < r ==> !RoseAt(costs, u)
    decreases |costs| - t
  {
    if RoseAt(costs, t) then t else FirstRiseFrom(costs, t + 1)
  }

  /**
   * The round at which the stop rule fires: the first one whose per-worker
   * time is strictly greater than the previous round's. A round only as slow
   * as the one before does not stop the phase.
   */
  function FirstRise(costs: seq<nat>): (r: nat)
    requires HasRise(costs)
    ensures 2 <= r <= |costs| && RoseAt(costs, r)
    ensures forall u :: 2 <= u < r ==> !RoseAt(costs, u)
  {
    FirstRiseFrom(costs, 2)
  }

  /** The stop rule never fires in round 1, and equal times never fire it. */
  lemma StopRuleExamples()
    ensures HasRise([5, 5, 5, 6]) && FirstRise([5, 5, 5, 6]) == 4
    ensures HasRise([9, 7, 8]) && FirstRise([9, 7, 8]) == 3
  {
    assert RoseAt([5, 5, 5, 6], 4);
    assert RoseAt([9, 7, 8], 3);
  }

  /**
   * One round of `optimization`: starts `t` workers, each on the chunk after
   * the previous worker's, and waits for all of them. `last` is the
   * `CalcData` of the last worker started before this round; `started` holds
   * the workers of this round in the order they were started.
   */
  method RunRound(last: CalcData, slot: ResultSlot, t: nat) returns (d: CalcData, ghost started: seq<CalcData>)
    requires 1 <= t <= MAX_ROUNDS
    requires t >= 2 ==> last.begin + CHUNK == CHUNK * ChunksBefore(t)
    requires slot.value == SENTINEL
    requires NoMatchIn(MatchTest(last.originalCrc32, last.badCrc32), 0, CHUNK * ChunksBefore(t))
    modifies slot
    ensures d.originalCrc32 == last.originalCrc32 && d.badCrc32 == last.badCrc32
    ensures d.begin + CHUNK == CHUNK * ChunksBefore(t + 1)
    ensures |started| == t
    ensures forall j :: 0 <= j < t ==>
      && started[j].begin == CHUNK * ChunkIndex(t, j)
      && started[j].end == CHUNK * (ChunkIndex(t, j) + 1)
      && started[j].originalCrc32 == last.originalCrc32
      && started[j].badCrc32 == last.badCrc32
    ensures slot.value == RunWorkers(MatchTest(last.originalCrc32, last.badCrc32), started, SENTINEL)
    ensures slot.value == SENTINEL ==>
      NoMatchIn(MatchTest(last.originalCrc32, last.badCrc32), 0, CHUNK * ChunksBefore(t + 1))
    ensures slot.value != SENTINEL ==>
      slot.value < CHUNK * ChunksBefore(t + 1) && Matches(slot.value, last.originalCrc32, last.badCrc32)
  {
    hide Matches, RunWorkers;
    ghost var test := MatchTest(last.originalCrc32, last.badCrc32);
    RunWorkersNone(test, SENTINEL);
    CursorFits(t + 1);
    assert ChunksBefore(t + 1) == ChunksBefore(t) + t;
    d := last;
    started := [];
    for j := 0 to t
      invariant d.originalCrc32 == last.originalCrc32 && d.badCrc32 == last.badCrc32
      invariant t >= 2 || j >= 1 ==> d.begin + CHUNK == CHUNK * (ChunksBefore(t) + j)
      invariant |started| == j
      invariant forall i :: 0 <= i < j ==>
        && started[i].begin == CHUNK * ChunkIndex(t, i)
        && started[i].end == CHUNK * (ChunkIndex(t, i) + 1)
        && started[i].originalCrc32 == last.originalCrc32
        && started[i].badCrc32 == last.badCrc32
      invariant slot.value == RunWorkers(test, started, SENTINEL)
      invariant slot.value == SENTINEL ==> NoMatchIn(test, 0, CHUNK * (ChunksBefore(t) + j))
      invariant slot.value != SENTINEL ==>
        slot.value < CHUNK * (ChunksBefore(t) + j) && test(slot.value)
    {
      var begin: u64 := if t == 1 then 0 else d.begin + CHUNK;
      d := d.(begin := begin, end := begin + CHUNK);
      RunWorkersSnoc(test, started, d, SENTINEL);
      FindCrc(d, slot);
      started := started + [d];
    }
  }

  /**
   * `optimization`: runs rounds of 1, 2, 3, ... workers over consecutive
   * chunks until a result is published or a round gets slower per worker,
   * and returns the thread count it settles on.
   *
   * `rounds` is the number of rounds run and `dispatched` the workers'
   * `CalcData` in the order they were started.
   */
  method Optimization(data: CalcData, slot: ResultSlot, costs: seq<nat>)
    returns (t: nat, ghost rounds: nat, ghost dispatched: seq<CalcData>)
    requires HasRise(costs) && FirstRise(costs) <= MAX_ROUNDS
    modifies slot
    ensures old(slot.value) != SENTINEL ==>
      t == 0 && rounds == 0 && dispatched == [] && slot.value == old(slot.value)
    ensures old(slot.value) == SENTINEL ==>
      && 1 <= rounds <= FirstRise(costs)
      && t == (if rounds == FirstRise(costs) then rounds - 1 else rounds)
      && t >= 1
    ensures old(slot.value) == SENTINEL ==>
      && |dispatched| == ChunksBefore(rounds + 1)
      && (forall k :: 0 <= k < |dispatched| ==>
            && dispatched[k].begin == CHUNK * k
            && dispatched[k].end == CHUNK * (k + 1)
            && dispatched[k].originalCrc32 == data.originalCrc32
            && dispatched[k].badCrc32 == data.badCrc32)
    ensures slot.value == RunWorkers(MatchTest(data.originalCrc32, data.badCrc32), dispatched, old(slot.value))
    ensures old(slot.value) == SENTINEL && slot.value == SENTINEL ==>
      && rounds == FirstRise(costs)
      && NoMatchIn(MatchTest(data.originalCrc32, data.badCrc32), 0, CHUNK * ChunksBefore(rounds + 1))
    ensures old(slot.value) == SENTINEL && slot.value != SENTINEL ==>
      && slot.value < CHUNK * ChunksBefore(rounds + 1)
      && Matches(slot.value, data.originalCrc32, data.badCrc32)
      && NoMatchIn(MatchTest(data.originalCrc32, data.badCrc32), 0, CHUNK * ChunksBefore(rounds))
  {
    hide Matches, RunWorkers;
    ghost var test := MatchTest(data.originalCrc32, data.badCrc32);
    RunWorkersNone(test, slot.value);
    var d := data;
    var findThreadCount := true;
    var calcPrev: nat := 0;
    t := 0;
    rounds := 0;
    dispatched := [];
    while slot.value == SENTINEL && findThreadCount
      invariant old(slot.value) != SENTINEL ==>
        rounds == 0 && t == 0 && dispatched == [] && slot.value == old(slot.value)
      invariant rounds <= FirstRise(costs)
      invariant findThreadCount ==> t == rounds && rounds < FirstRise(costs)
      invariant !findThreadCount ==> rounds == FirstRise(costs) && t == rounds - 1
      invariant findThreadCount && rounds >= 1 ==> calcPrev == costs[rounds - 1]
      invariant d.originalCrc32 == data.originalCrc32 && d.badCrc32 == data.badCrc32
      invariant rounds >= 1 ==> d.begin + CHUNK == CHUNK * ChunksBefore(rounds + 1)
      invariant |dispatched| == ChunksBefore(rounds + 1)
      invariant forall k :: 0 <= k < |dispatched| ==>
        && dispatched[k].begin == CHUNK * k
        && dispatched[k].end == CHUNK * (k + 1)
        && dispatched[k].originalCrc32 == data.originalCrc32
        && dispatched[k].badCrc32 == data.badCrc32
      invariant slot.value == RunWorkers(test, dispatched, old(slot.value))
      invariant old(slot.value) == SENTINEL && rounds == 0 ==> slot.value == SENTINEL
      invariant slot.value == SENTINEL ==> NoMatchIn(test, 0, CHUNK * ChunksBefore(rounds + 1))
      invariant old(slot.value) == SENTINEL && slot.value != SENTINEL ==>
        && slot.value < CHUNK * ChunksBefore(rounds + 1)
        && test(slot.value)
        && NoMatchIn(test, 0, CHUNK * ChunksBefore(rounds))
      decreases FirstRise(costs) - rounds
    {
      t := t + 1;
      rounds := rounds + 1;
      ghost var started;
      d, started := RunRound(d, slot, t);
      RunWorkersAppend(test, dispatched, started, SENTINEL);
      dispatched := dispatched + started;
      var calcTime := costs[t - 1];
      if t > 1 && calcPrev < calcTime {
        assert RoseAt(costs, rounds);
        findThreadCount := false;
        t := t - 1;
      } else {
        calcPrev := calcTime;
      }
    }
  }
}
