/**
 * The search worker `findcrc` of main.cpp and the shared result slot the
 * workers publish into.
 *
 * Threads are modelled as workers that run one after another over the same
 * ResultSlot object: one legal schedule of the source's concurrent workers.
 * Under that schedule the slot a worker polls does not change while it runs,
 * so what a worker does is a function (Scan) of its range and of the slot it
 * starts with.
 */
module Search {
  import opened Crc
  import opened Patcher

  /** `size_t` / `uint64_t`. */
  type u64 = x: int | 0 <= x <= 0xFFFF_FFFF_FFFF_FFFF

  /** `UINT64_MAX`: the slot holds no result yet. */
  const SENTINEL: u64 := 0xFFFF_FFFF_FFFF_FFFF

  /** A worker polls the slot at every candidate that is a multiple of this. */
  const CHECK_INTERVAL: nat := 10_000_000

  /** `CalcData` without its `result` reference, which is the ResultSlot. */
  datatype CalcData = CalcData(begin: u64, end: u64, originalCrc32: bv32, badCrc32: bv32)

  /** The `std::atomic_uint64_t` every worker of a search shares. */
  class ResultSlot {
    var value: u64

    constructor ()
      ensures value == SENTINEL
    {
      value := SENTINEL;
    }
  }

  /**
   * The test `findcrc` applies to candidate `i`: the CRC of the four bytes of
   * `uint32_t(i)`, seeded with `badCrc32`, equals `originalCrc32`.
   */
  predicate Matches(i: nat, originalCrc32: bv32, badCrc32: bv32)
  {
    Crc32(LittleEndian(Truncate32(i)), badCrc32) == originalCrc32
  }

  /**
   * Because of the `uint32_t(i)` truncation, candidates 2^32 apart are the
   * same test: a tuning chunk past 2^32 repeats candidates below it.
   */
  lemma MatchesWraps(i: nat, k: nat, originalCrc32: bv32, badCrc32: bv32)
    ensures Matches(i + k * U32_MODULUS, originalCrc32, badCrc32) == Matches(i, originalCrc32, badCrc32)
  {
    Truncate32Wraps(i, k);
  }

  /**
   * A test a worker applies to each candidate. The properties of the scan
   * below hold for every test; the one `findcrc` uses is MatchTest.
   */
  type CandidateTest = nat -> bool

  function MatchTest(originalCrc32: bv32, badCrc32: bv32): CandidateTest
  {
    (i: nat) => Matches(i, originalCrc32, badCrc32)
  }

  /** No candidate in `[lo, hi)` passes `test`. */
  predicate NoMatchIn(test: CandidateTest, lo: nat, hi: nat)
  {
    forall m :: lo <= m < hi ==> !test(m)
  }

  /** How a worker's loop ends. */
  datatype Stop = Found(candidate: u64) | Cancelled(at: nat) | Exhausted

  /**
   * The worker's loop from candidate `i` to `end`, with `slot` the value it
   * reads when it polls: it stops at the first candidate that passes `test`,
   * or at a multiple of CHECK_INTERVAL once the slot holds a result, or at the
   * end of its range.
   */
  function Scan(test: CandidateTest, end: u64, i: nat, slot: u64): Stop
    decreases end - i
  {
    if i >= end then Exhausted
    else if test(i) then Found(i)
    else if i % CHECK_INTERVAL == 0 && slot != SENTINEL then Cancelled(i)
    else Scan(test, end, i + 1, slot)
  }

  /** The slot after a worker that stopped with `stop`. */
  function Publish(stop: Stop, slot: u64): u64
  {
    if stop.Found? then stop.candidate else slot
  }

  /**
   * The slot after `workers` ran one after another in the order given, each
   * over its own range, starting from `slot`.
   */
  function RunWorkers(test: CandidateTest, workers: seq<CalcData>, slot: u64): u64
    decreases |workers|
  {
    if workers == [] then slot
    else
      var before := RunWorkers(test, workers[..|workers| - 1], slot);
      var w := workers[|workers| - 1];
      Publish(Scan(test, w.end, w.begin, before), before)
  }

  /** No workers leave the slot as it was. */
  lemma RunWorkersNone(test: CandidateTest, slot: u64)
    ensures RunWorkers(test, [], slot) == slot
  {
  }

  /** One more worker: it runs on the slot the workers before it left. */
  lemma RunWorkersSnoc(test: CandidateTest, workers: seq<CalcData>, w: CalcData, slot: u64)
    ensures var before := RunWorkers(test, workers, slot);
      RunWorkers(test, workers + [w], slot) == Publish(Scan(test, w.end, w.begin, before), before)
  {
    assert (workers + [w])[..|workers|] == workers;
  }

  /** Running `a + b` is running `a`, then `b` on the slot `a` left. */
  lemma {:induction false} RunWorkersAppend(test: CandidateTest, a: seq<CalcData>, b: seq<CalcData>, slot: u64)
    ensures RunWorkers(test, a + b, slot) == RunWorkers(test, b, RunWorkers(test, a, slot))
    decreases |b|
  {
    if b == [] {
      assert a + b == a;
    } else {
      assert (a + b)[..|a + b| - 1] == a + b[..|b| - 1];
      assert (a + b)[|a + b| - 1] == b[|b| - 1];
      RunWorkersAppend(test, a, b[..|b| - 1], slot);
    }
  }

  /** The smallest multiple of CHECK_INTERVAL that is at least `i`. */
  function NextCheckpoint(i: nat): (c: nat)
    ensures i <= c < i + CHECK_INTERVAL
    ensures c % CHECK_INTERVAL == 0
  {
    if i % CHECK_INTERVAL == 0 then i else i + (CHECK_INTERVAL - i % CHECK_INTERVAL)
  }

  /** A worker publishes only a passing candidate of its range, and the first one. */
  lemma {:induction false} ScanFoundIsFirstMatch(test: CandidateTest, end: u64, i: nat, slot: u64)
    requires Scan(test, end, i, slot).Found?
    ensures var k := Scan(test, end, i, slot).candidate;
      i <= k < end && test(k) && NoMatchIn(test, i, k)
    decreases end - i
  {
    if i < end && !test(i) {
      ScanFoundIsFirstMatch(test, end, i + 1, slot);
    }
  }

  /**
   * A worker returns without writing before the end of its range only at a
   * multiple of CHECK_INTERVAL, only when the slot already holds a result,
   * and only after every candidate up to and including that one failed.
   */
  lemma {:induction false} ScanCancelledAtCheckpoint(test: CandidateTest, end: u64, i: nat, slot: u64)
    requires Scan(test, end, i, slot).Cancelled?
    ensures var at := Scan(test, end, i, slot).at;
      && slot != SENTINEL
      && at % CHECK_INTERVAL == 0
      && i <= at < end
      && NoMatchIn(test, i, at + 1)
    decreases end - i
  {
    if i < end && !test(i) && !(i % CHECK_INTERVAL == 0 && slot != SENTINEL) {
      ScanCancelledAtCheckpoint(test, end, i + 1, slot);
    }
  }

  /** A worker that runs to the end of its range saw no passing candidate. */
  lemma {:induction false} ScanExhaustedNoMatch(test: CandidateTest, end: u64, i: nat, slot: u64)
    requires Scan(test, end, i, slot).Exhausted?
    ensures NoMatchIn(test, i, end)
    decreases end - i
  {
    if i < end {
      ScanExhaustedNoMatch(test, end, i + 1, slot);
    }
  }

  /**
   * Cancellation is bounded: once the slot holds a result, a worker tests no
   * candidate past the next multiple of CHECK_INTERVAL, so at most
   * CHECK_INTERVAL candidates in all.
   */
  lemma {:induction false} ScanCancellationBound(test: CandidateTest, end: u64, i: nat, slot: u64)
    requires slot != SENTINEL
    ensures match Scan(test, end, i, slot)
      case Found(k) => k <= NextCheckpoint(i)
      case Cancelled(at) => at == NextCheckpoint(i)
      case Exhausted => end <= NextCheckpoint(i)
    decreases end - i
  {
    if i < end && !test(i) && i % CHECK_INTERVAL != 0 {
      assert NextCheckpoint(i + 1) == NextCheckpoint(i);
      ScanCancellationBound(test, end, i + 1, slot);
    }
  }

  /**
   * What one worker over `[begin, end)` leaves in the slot: either the slot
   * as it found it, or the first passing candidate of its range. Started on
   * the sentinel it never cancels, so it leaves the sentinel exactly when no
   * candidate of its range passes.
   */
  lemma WorkerOutcome(test: CandidateTest, begin: u64, end: u64, slot: u64)
    ensures var after := Publish(Scan(test, end, begin, slot), slot);
      && (after == slot || (begin <= after < end && test(after) && NoMatchIn(test, begin, after)))
      && (slot == SENTINEL ==> (after == SENTINEL <==> NoMatchIn(test, begin, end)))
  {
    match Scan(test, end, begin, slot)
    case Found(k) =>
      ScanFoundIsFirstMatch(test, end, begin, slot);
    case Cancelled(at) =>
      ScanCancelledAtCheckpoint(test, end, begin, slot);
    case Exhausted =>
      ScanExhaustedNoMatch(test, end, begin, slot);
  }

  /**
   * One candidate of `findcrc`: writes `uint32_t(i)` into the scratch buffer
   * and compares the CRC of the buffer, seeded with `badCrc32`, with
   * `originalCrc32`.
   */
  method TestCandidate(buff: array<Byte>, i: nat, originalCrc32: bv32, badCrc32: bv32) returns (hit: bool)
    requires buff.Length == 4
    modifies buff
    ensures hit == Matches(i, originalCrc32, badCrc32)
    ensures buff[..] == LittleEndian(Truncate32(i))
  {
    ReplaceLastFourBytes(buff, Truncate32(i));
    assert buff[..] == LittleEndian(Truncate32(i));
    var currentCrc32 := Crc32(buff[..], badCrc32);
    hit := currentCrc32 == originalCrc32;
  }

  /**
   * `findcrc`: tries the candidates of `[data.begin, data.end)` in increasing
   * order against a scratch four-byte buffer and publishes the first match,
   * polling the slot at every multiple of CHECK_INTERVAL.
   */
  method FindCrc(data: CalcData, slot: ResultSlot)
    modifies slot
    ensures var test := MatchTest(data.originalCrc32, data.badCrc32);
      slot.value == Publish(Scan(test, data.end, data.begin, old(slot.value)), old(slot.value))
    ensures slot.value == old(slot.value)
      || (data.begin <= slot.value < data.end
          && Matches(slot.value, data.originalCrc32, data.badCrc32)
          && NoMatchIn(MatchTest(data.originalCrc32, data.badCrc32), data.begin, slot.value))
    ensures old(slot.value) == SENTINEL ==>
      (slot.value == SENTINEL <==> NoMatchIn(MatchTest(data.originalCrc32, data.badCrc32), data.begin, data.end))
  {
    hide Matches;
    ghost var test := MatchTest(data.originalCrc32, data.badCrc32);
    WorkerOutcome(test, data.begin, data.end, slot.value);
    var buff := new Byte[4];
    var i: nat := data.begin;
    while i < data.end
      invariant data.begin <= i
      invariant slot.value == old(slot.value)
      invariant Scan(test, data.end, i, slot.value) == Scan(test, data.end, data.begin, slot.value)
      invariant buff.Length == 4
      decreases data.end - i
    {
      var hit := TestCandidate(buff, i, data.originalCrc32, data.badCrc32);
      if hit {
        slot.value := i;
        return;
      }
      if i % CHECK_INTERVAL == 0 {
        if slot.value != SENTINEL {
          return;
        }
      }
      i := i + 1;
    }
  }
}
