/**
 * `hack` of main.cpp: builds `original + injection + four patch bytes` and
 * chooses the patch so that the CRC-32 of the result equals the CRC-32 of
 * `original`. After the tuning phase, if no patch was found yet, the whole
 * `uint32_t` range below `0xFFFFFFFF` is split among `t` workers.
 */
module Forge {
  import opened Crc
  import opened Patcher
  import opened Search
  import opened Tuning

  /** `std::numeric_limits<uint32_t>::max()`: the exclusive end of the full sweep. */
  const MAX_VAL: nat := 0xFFFF_FFFF

  datatype Result<T> = Ok(value: T) | Err(message: string)

  /** The message of the exception `hack` throws when no patch exists in the sweep. */
  const CANT_HACK: string := "Can't hack"

  /**
   * `badCrc32 = ~crc32(injection, ~originalCrc32)`: the running CRC register
   * after `original` and then `injection`, which is where the four patch
   * bytes resume the computation.
   */
  function BadCrc(original: seq<Byte>, injection: seq<Byte>): (bad: bv32)
    ensures bad == Register(INITIAL, original + injection)
  {
    Continuation(original, injection, INITIAL);
    !Crc32(injection, !Crc32(original))
  }

  /**
   * A candidate passes the worker's test exactly when the forged message
   * built from it has the CRC-32 of the original: the test on four bytes
   * resumed from `badCrc32` decides the CRC of the whole result.
   */
  lemma ForgedCrc(original: seq<Byte>, injection: seq<Byte>, v: nat)
    ensures Matches(v, Crc32(original), BadCrc(original, injection))
        <==> Crc32(original + injection + LittleEndian(Truncate32(v))) == Crc32(original)
  {
    var patch := LittleEndian(Truncate32(v));
    ComplementOfChecksum(original + injection, INITIAL);
    Continuation(original + injection, patch, INITIAL);
  }

  /** `step = (maxVal - MinVal) / t`: the width of each sweep range but the last. */
  function SweepStep(minVal: nat, t: nat): nat
    requires 1 <= t && minVal <= MAX_VAL
  {
    (MAX_VAL - minVal) / t
  }

  /** `MinVal + step * j`: where sweep worker `j` starts. */
  function SweepBegin(minVal: nat, t: nat, j: nat): nat
    requires 1 <= t && minVal <= MAX_VAL
  {
    minVal + SweepStep(minVal, t) * j
  }

  /** Where sweep worker `j` stops: the next worker's start, and `maxVal` for the last one. */
  function SweepEnd(minVal: nat, t: nat, j: nat): nat
    requires 1 <= t && minVal <= MAX_VAL
  {
    if j + 1 < t then minVal + SweepStep(minVal, t) * (j + 1) else MAX_VAL
  }

  /** `t` steps of `step` do not pass `maxVal`. */
  lemma {:induction false} StepsFit(minVal: nat, t: nat, j: nat)
    requires 1 <= t && minVal <= MAX_VAL && j <= t
    ensures SweepStep(minVal, t) * j <= MAX_VAL - minVal
  {
    var step := SweepStep(minVal, t);
    assert step * t <= MAX_VAL - minVal;
    if j < t {
      assert step * j <= step * t by {
        assert step * t == step * j + step * (t - j);
      }
    }
  }

  /**
   * The sweep ranges partition `[MinVal, maxVal)` in order: each one is a
   * well-formed range inside it, the first starts at `MinVal`, each next one
   * starts where the previous one stops, and the last stops at `maxVal`, so
   * the candidate `0xFFFFFFFF` itself is in none of them.
   */
  lemma SweepPartition(minVal: nat, t: nat, j: nat)
    requires 1 <= t && minVal <= MAX_VAL && j < t
    ensures minVal <= SweepBegin(minVal, t, j) <= SweepEnd(minVal, t, j) <= MAX_VAL
    ensures j == 0 ==> SweepBegin(minVal, t, j) == minVal
    ensures j + 1 < t ==> SweepEnd(minVal, t, j) == SweepBegin(minVal, t, j + 1)
    ensures j + 1 == t ==> SweepEnd(minVal, t, j) == MAX_VAL
  {
    StepsFit(minVal, t, j);
    StepsFit(minVal, t, j + 1);
    var step := SweepStep(minVal, t);
    assert step * (j + 1) == step * j + step;
  }

  /** Sweep ranges of different workers do not overlap. */
  lemma SweepDisjoint(minVal: nat, t: nat, j1: nat, j2: nat)
    requires 1 <= t && minVal <= MAX_VAL && j1 < j2 < t
    ensures SweepEnd(minVal, t, j1) <= SweepBegin(minVal, t, j2)
  {
    var step := SweepStep(minVal, t);
    assert step * (j1 + 1) <= step * j2 by {
      assert step * j2 == step * (j1 + 1) + step * (j2 - j1 - 1);
    }
  }

  /** The sweep worker, among the first `j + 1`, whose range holds candidate `c`. */
  function SweepOwnerFrom(minVal: nat, t: nat, c: nat, j: nat): (k: nat)
    requires 1 <= t && minVal <= c < MAX_VAL && j < t
    requires c < SweepEnd(minVal, t, j)
    ensures k <= j
    ensures SweepBegin(minVal, t, k) <= c < SweepEnd(minVal, t, k)
    decreases j
  {
    SweepPartition(minVal, t, j);
    if SweepBegin(minVal, t, j) <= c then j
    else
      SweepPartition(minVal, t, j - 1);
      SweepOwnerFrom(minVal, t, c, j - 1)
  }

  /**
   * The sweep worker whose range holds candidate `c`: every candidate in
   * `[MinVal, maxVal)` is searched by some worker (by exactly one, with
   * SweepDisjoint).
   */
  function SweepOwner(minVal: nat, t: nat, c: nat): (j: nat)
    requires 1 <= t && minVal <= c < MAX_VAL
    ensures j < t
    ensures SweepBegin(minVal, t, j) <= c < SweepEnd(minVal, t, j)
  {
    SweepPartition(minVal, t, t - 1);
    SweepOwnerFrom(minVal, t, c, t - 1)
  }

  /**
   * `std::vector<char> result(size + 4)` followed by the two `std::copy`
   * calls: `original`, then `injection`, then four zero bytes.
   */
  method AssembleResult(original: seq<Byte>, injection: seq<Byte>) returns (result: array<Byte>)
    ensures fresh(result)
    ensures result[..] == original + injection + [0, 0, 0, 0]
  {
    var n := |original| + |injection|;
    result := new Byte[n + 4](_ => 0);
    for k := 0 to |original|
      invariant result[..k] == original[..k]
      invariant result[n..] == [0, 0, 0, 0]
    {
      result[k] := original[k];
    }
    for k := 0 to |injection|
      invariant result[..|original|] == original
      invariant result[|original|..|original| + k] == injection[..k]
      invariant result[n..] == [0, 0, 0, 0]
    {
      result[|original| + k] := injection[k];
    }
    assert result[..] == result[..|original|] + result[|original|..n] + result[n..];
  }

  /**
   * The full sweep of `hack`: `t` workers, worker `j` over
   * `[SweepBegin(j), SweepEnd(j))`, run one after another on `slot`.
   * `started` holds the workers in the order they were started.
   */
  method Sweep(data: CalcData, slot: ResultSlot, t: nat) returns (ghost started: seq<CalcData>)
    requires 1 <= t && data.end <= MAX_VAL
    requires slot.value == SENTINEL
    modifies slot
    ensures |started| == t
    ensures forall j :: 0 <= j < t ==>
      && started[j].begin == SweepBegin(data.end, t, j)
      && started[j].end == SweepEnd(data.end, t, j)
      && started[j].originalCrc32 == data.originalCrc32
      && started[j].badCrc32 == data.badCrc32
    ensures slot.value == RunWorkers(MatchTest(data.originalCrc32, data.badCrc32), started, SENTINEL)
    ensures slot.value == SENTINEL ==>
      NoMatchIn(MatchTest(data.originalCrc32, data.badCrc32), data.end, MAX_VAL)
    ensures slot.value != SENTINEL ==>
      && data.end <= slot.value < MAX_VAL
      && Matches(slot.value, data.originalCrc32, data.badCrc32)
  {
    hide Matches, RunWorkers;
    ghost var test := MatchTest(data.originalCrc32, data.badCrc32);
    RunWorkersNone(test, SENTINEL);
    var minVal := data.end;
    var step := (MAX_VAL - minVal) / t;
    var d := data;
    started := [];
    for j := 0 to t
      invariant d.originalCrc32 == data.originalCrc32 && d.badCrc32 == data.badCrc32
      invariant |started| == j
      invariant forall i :: 0 <= i < j ==>
        && started[i].begin == SweepBegin(minVal, t, i)
        && started[i].end == SweepEnd(minVal, t, i)
        && started[i].originalCrc32 == data.originalCrc32
        && started[i].badCrc32 == data.badCrc32
      invariant slot.value == RunWorkers(test, started, SENTINEL)
      invariant slot.value == SENTINEL ==>
        NoMatchIn(test, minVal, if j == 0 then minVal else SweepEnd(minVal, t, j - 1))
      invariant slot.value != SENTINEL ==> minVal <= slot.value < MAX_VAL && test(slot.value)
    {
      SweepPartition(minVal, t, j);
      if j > 0 {
        SweepPartition(minVal, t, j - 1);
      }
      var begin: u64 := minVal + step * j;
      var end: u64 := if j + 1 < t then minVal + step * (j + 1) else MAX_VAL;
      d := d.(begin := begin, end := end);
      RunWorkersSnoc(test, started, d, SENTINEL);
      FindCrc(d, slot);
      started := started + [d];
    }
    SweepPartition(minVal, t, t - 1);
  }

  /**
   * The search part of `hack`: the tuning phase from `CalcData{0, 0, ...}`,
   * then, if it published nothing, the full sweep with `t` workers from
   * `MinVal = data.end`, which is still 0 because the tuning phase got a
   * copy of `data`. Returns the published candidate, or SENTINEL.
   *
   * `rounds` is the number of tuning rounds, `tuned` the tuning workers and
   * `swept` the sweep workers, each in the order they were started.
   */
  method FindPatch(originalCrc32: bv32, badCrc32: bv32, costs: seq<nat>)
    returns (hackVal: u64, ghost t: nat, ghost rounds: nat, ghost tuned: seq<CalcData>, ghost swept: seq<CalcData>)
    requires HasRise(costs) && FirstRise(costs) <= MAX_ROUNDS
    ensures 1 <= rounds <= FirstRise(costs)
    ensures t == (if rounds == FirstRise(costs) then rounds - 1 else rounds) && t >= 1
    ensures |tuned| == ChunksBefore(rounds + 1)
    ensures forall k :: 0 <= k < |tuned| ==>
      && tuned[k].begin == CHUNK * k
      && tuned[k].end == CHUNK * (k + 1)
      && tuned[k].originalCrc32 == originalCrc32
      && tuned[k].badCrc32 == badCrc32
    ensures RunWorkers(MatchTest(originalCrc32, badCrc32), tuned, SENTINEL) == SENTINEL ==>
      && rounds == FirstRise(costs)
      && NoMatchIn(MatchTest(originalCrc32, badCrc32), 0, CHUNK * ChunksBefore(rounds + 1))
    ensures RunWorkers(MatchTest(originalCrc32, badCrc32), tuned, SENTINEL) != SENTINEL ==>
      && RunWorkers(MatchTest(originalCrc32, badCrc32), tuned, SENTINEL) < CHUNK * ChunksBefore(rounds + 1)
      && NoMatchIn(MatchTest(originalCrc32, badCrc32), 0, CHUNK * ChunksBefore(rounds))
    ensures RunWorkers(MatchTest(originalCrc32, badCrc32), tuned, SENTINEL) != SENTINEL ==> swept == []
    ensures RunWorkers(MatchTest(originalCrc32, badCrc32), tuned, SENTINEL) == SENTINEL ==>
      && |swept| == t
      && forall j :: 0 <= j < t ==>
        && swept[j].begin == SweepBegin(0, t, j)
        && swept[j].end == SweepEnd(0, t, j)
        && swept[j].originalCrc32 == originalCrc32
        && swept[j].badCrc32 == badCrc32
    ensures hackVal == RunWorkers(MatchTest(originalCrc32, badCrc32), tuned + swept, SENTINEL)
    ensures hackVal != SENTINEL ==> Matches(hackVal, originalCrc32, badCrc32)
    ensures hackVal == SENTINEL ==> NoMatchIn(MatchTest(originalCrc32, badCrc32), 0, MAX_VAL)
  {
    hide Matches, RunWorkers;
    ghost var test := MatchTest(originalCrc32, badCrc32);
    var hackSlot := new ResultSlot();
    var data := CalcData(0, 0, originalCrc32, badCrc32);
    var threads;
    threads, rounds, tuned := Optimization(data, hackSlot, costs);
    t := threads;
    swept := [];
    if hackSlot.value == SENTINEL {
      swept := Sweep(data, hackSlot, threads);
    }
    RunWorkersNone(test, RunWorkers(test, tuned, SENTINEL));
    RunWorkersAppend(test, tuned, swept, SENTINEL);
    hackVal := hackSlot.value;
  }

  /**
   * The last step of `hack`: overwrites the four zero bytes at the end of the
   * assembled buffer, in place, with the low 32 bits of the published
   * candidate, and returns the buffer. When the candidate passed the test,
   * the buffer has the CRC-32 of `original`.
   */
  method PatchResult(result: array<Byte>, ghost original: seq<Byte>, ghost injection: seq<Byte>, hackVal: u64)
    returns (forged: seq<Byte>)
    requires result[..] == original + injection + [0, 0, 0, 0]
    requires Matches(hackVal, Crc32(original), BadCrc(original, injection))
    modifies result
    ensures result[..] == forged
    ensures forged == original + injection + LittleEndian(Truncate32(hackVal))
    ensures Crc32(forged) == Crc32(original)
  {
    assert result[..result.Length - 4] == original + injection;
    ReplaceLastFourBytes(result, Truncate32(hackVal));
    ForgedCrc(original, injection, hackVal);
    forged := result[..];
  }

  /**
   * `hack`: the forged message, or the "Can't hack" error. `costs` stands in
   * for the clock of the tuning phase. `hackVal` is the value the search
   * published (SENTINEL for none); `t`, `rounds`, `tuned` and `swept` are
   * those of FindPatch.
   */
  method Hack(original: seq<Byte>, injection: seq<Byte>, costs: seq<nat>)
    returns (r: Result<seq<Byte>>, ghost hackVal: u64,
             ghost t: nat, ghost rounds: nat, ghost tuned: seq<CalcData>, ghost swept: seq<CalcData>)
    requires HasRise(costs) && FirstRise(costs) <= MAX_ROUNDS
    ensures 1 <= rounds <= FirstRise(costs)
    ensures t == (if rounds == FirstRise(costs) then rounds - 1 else rounds) && t >= 1
    ensures |tuned| == ChunksBefore(rounds + 1)
    ensures forall k :: 0 <= k < |tuned| ==>
      && tuned[k].begin == CHUNK * k
      && tuned[k].end == CHUNK * (k + 1)
      && tuned[k].originalCrc32 == Crc32(original)
      && tuned[k].badCrc32 == BadCrc(original, injection)
    ensures RunWorkers(MatchTest(Crc32(original), BadCrc(original, injection)), tuned, SENTINEL) == SENTINEL ==>
      && rounds == FirstRise(costs)
      && |swept| == t
      && forall j :: 0 <= j < t ==>
        && swept[j].begin == SweepBegin(0, t, j)
        && swept[j].end == SweepEnd(0, t, j)
        && swept[j].originalCrc32 == Crc32(original)
        && swept[j].badCrc32 == BadCrc(original, injection)
    ensures RunWorkers(MatchTest(Crc32(original), BadCrc(original, injection)), tuned, SENTINEL) != SENTINEL ==>
      && swept == []
      && NoMatchIn(MatchTest(Crc32(original), BadCrc(original, injection)), 0, CHUNK * ChunksBefore(rounds))
    ensures hackVal == RunWorkers(MatchTest(Crc32(original), BadCrc(original, injection)), tuned + swept, SENTINEL)
    ensures r.Ok? <==> hackVal != SENTINEL
    ensures r.Ok? ==>
      && r.value == original + injection + LittleEndian(Truncate32(hackVal))
      && Matches(hackVal, Crc32(original), BadCrc(original, injection))
      && Crc32(r.value) == Crc32(original)
    ensures r.Err? ==>
      && r.message == CANT_HACK
      && NoMatchIn(MatchTest(Crc32(original), BadCrc(original, injection)), 0, MAX_VAL)
  {
    hide Matches, RunWorkers;
    var result := AssembleResult(original, injection);
    var originalCrc32 := Crc32(original);
    var badCrc32 := BadCrc(original, injection);
    var found;
    found, t, rounds, tuned, swept := FindPatch(originalCrc32, badCrc32, costs);
    hackVal := found;
    if found != SENTINEL {
      var forged := PatchResult(result, original, injection, found);
      r := Ok(forged);
    } else {
      r := Err(CANT_HACK);
    }
  }
}
