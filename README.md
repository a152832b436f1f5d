# CRC-32 forger

This project models the forging engine of `main.cpp`. `hack(original, injection)` builds
`original + injection + four patch bytes`. It chooses the patch so that the CRC-32 of the new
buffer equals the CRC-32 of `original`.

- `badCrc32` is the running CRC register after `original + injection`.
- The four bytes are found by brute force. A candidate `v` is tested with
  `crc32(LE4(uint32_t(v)), badCrc32) == originalCrc32`.
- The workers (`findcrc`) scan half-open ranges and publish the first match into a shared
  64-bit slot. The slot's sentinel is `UINT64_MAX`.
- A tuning phase (`optimization`) runs rounds of 1, 2, 3, ... workers over consecutive chunks of
  30,000,000 candidates. It stops when a match is published, or when a round's per-worker time is
  strictly greater than the previous round's. In the second case it settles on one thread fewer.
- If the tuning phase found nothing, a full sweep splits `[0, 0xFFFFFFFF)` among that many
  workers. It starts again from 0, not from where the tuning chunks stopped (see below).

The modules follow the program's parts:

- `Crc` (crc32.dfy) is the CRC-32 engine.
  - The routine is declared in CRC32.hpp, which is not part of this model.
  - The model defines the standard reflected CRC-32 of IEEE 802.3, clause 3.2.9, with polynomial
    0xEDB88320.
  - It uses the calling convention that main.cpp:102-103 relies on: the seed is the raw running
    register (all ones by default), and the result is the complement of the final register. This
    convention is inferred from how `hack` uses `crc32`, not read from its definition.
  - The continuation law `crc32(b, ~crc32(a)) == crc32(a + b)` is proved.
  - The standard check value `crc32("123456789") == 0xCBF43926` is proved.
- `Patcher` (patcher.dfy) holds `replaceLastFourBytes` on an array. It also holds the
  little-endian byte image of a `uint32_t` and the `uint32_t(i)` truncation.
- `Search` (search.dfy) holds the worker `findcrc` and the shared slot. The slot is a class
  `ResultSlot` with one mutable field.
  - The worker's loop is specified by the function `Scan`. `Scan`'s properties are proved for any
    candidate test.
- `Tuning` (tuning.dfy) holds `optimization`.
  - Its cursor arithmetic hands round `t`, worker `j` the chunk number `t(t-1)/2 + j`.
  - The wall clock is replaced by a caller-supplied sequence `costs`, where `costs[t-1]` is the
    per-worker time of round `t`.
- `Forge` (forge.dfy) holds `hack`: the assembly of the result, `badCrc32`, the full-sweep
  partition, and the final patch.

Threads are modelled as workers that run one after another in start order, over a single
`ResultSlot` object. This is one legal schedule of the program's concurrent workers.

The model keeps the code's quirks:

- `optimization` receives `CalcData` by value. So `hack` reads `data.end == 0` at main.cpp:119,
  and the full sweep starts again from 0.
- The last sweep range ends at `0xFFFFFFFF` exclusive (main.cpp:123), so the sweep never tests
  the candidate `0xFFFFFFFF`. `Hack`'s error case therefore states only that no candidate below
  `0xFFFFFFFF` matches. This model does not prove that some candidate always matches.
- Candidates are truncated to 32 bits at main.cpp:31 and main.cpp:115. Tuning chunks can pass
  2^32 and then repeat candidates (`MatchesWraps`).

## Model

| member | source | states |
|---|---|---|
| Crc.RegisterAppend | main.cpp:102-103 | Feeding `a + b` into the register is the same as feeding `a`, then `b` from the register `a` left. |
| Crc.Continuation | main.cpp:102-103 | Resuming from the complement of `crc32(a, seed)` gives `crc32(a + b, seed)`. This is the law that makes `badCrc32` the register after `original + injection`. |
| Crc.CheckValue | main.cpp:102 | The engine is CRC-32/IEEE: the CRC of "123456789" is 0xCBF43926. |
| Patcher.LittleEndian | main.cpp:24 | The image of a `uint32_t` is four bytes, and reading them back little-endian gives the value. |
| Patcher.LittleEndianOnto | main.cpp:24 | Every four-byte string is the image of the value it reads as, so the images are exactly all four-byte strings. |
| Patcher.Truncate32Wraps | main.cpp:31 | `uint32_t(i)` is unchanged by adding any multiple of 2^32 to `i`. |
| Patcher.ReplaceLastFourBytes | main.cpp:22-25 | Given at least four bytes, the length is kept, every byte before the last four is unchanged, and the last four become the little-endian bytes of `value`. |
| Search.ResultSlot.constructor | main.cpp:107 | The shared slot starts at the sentinel `UINT64_MAX`. |
| Search.MatchesWraps | main.cpp:31-34 | Candidates 2^32 apart pass or fail the worker's test together. |
| Search.RunWorkersAppend | main.cpp:121-130 | Running one list of workers and then another, on the slot the first list left, is the same as running all of them in start order. |
| Search.NextCheckpoint | main.cpp:39 | The next polling point is the least multiple of 10,000,000 that is at least `i`. |
| Search.ScanFoundIsFirstMatch | main.cpp:29-37 | A published candidate lies in `[begin, end)`, passes the test, and no candidate before it in the range passes. |
| Search.ScanCancelledAtCheckpoint | main.cpp:38-41 | A worker returns early without writing only at a multiple of 10,000,000, only when the slot holds a result, and only after every candidate up to that point failed. |
| Search.ScanExhaustedNoMatch | main.cpp:29-48 | A worker that reaches the end of its range saw no passing candidate. |
| Search.ScanCancellationBound | main.cpp:39-41 | Once the slot holds a result, a worker tests no candidate past the next multiple of 10,000,000. |
| Search.WorkerOutcome | main.cpp:27-49 | A worker leaves the slot as it was or writes the first match of its range. Started on the sentinel, it leaves the sentinel exactly when its range has no match. |
| Search.TestCandidate | main.cpp:30-34 | The scratch buffer becomes the four bytes of `uint32_t(i)`, and the answer is whether their CRC seeded with `badCrc32` equals `originalCrc32`. |
| Search.FindCrc | main.cpp:27-49 | `findcrc` leaves the slot as `Scan` prescribes: unchanged, or the first match in `[begin, end)`. From the sentinel it stays the sentinel if and only if the range has no match. |
| Tuning.ChunksBeforeClosedForm | main.cpp:57-62 | The number of chunks handed out before round `t` is t(t-1)/2. |
| Tuning.ChunksBeforeGrows | main.cpp:57-62 | All chunks of an earlier round come before the first chunk of a later round. |
| Tuning.ChunkOrder | main.cpp:60-62 | Chunk numbers follow start order: by round, then by worker. Two workers share a chunk number if and only if they are the same worker. |
| Tuning.ChunkOwnerFrom | main.cpp:60-62 | Every chunk number from round `t`'s first chunk on belongs to a worker of round `t` or later. |
| Tuning.ChunkOwner | main.cpp:57-62 | Every chunk number belongs to some worker, so the tuning chunks start at 0 and leave no gap. |
| Tuning.CursorFits | main.cpp:61-62 | Within 1,000,000 rounds the tuning cursor stays below 2^64. |
| Tuning.FirstRiseFrom | main.cpp:73-79 | Finds the first round from `t` on whose per-worker time is strictly greater than the previous round's. No earlier round from `t` on rises. |
| Tuning.FirstRise | main.cpp:73-79 | The stop rule fires at the first round (never round 1) whose time strictly exceeds the previous one, and at no earlier round. |
| Tuning.StopRuleExamples | main.cpp:73-79 | Equal times do not stop the phase, and a drop followed by a rise stops it at the rise. |
| Tuning.RunRound | main.cpp:59-69 | Round `t` starts `t` workers on the next `t` chunks, `[3e7·k, 3e7·(k+1))` for `k = t(t-1)/2 + j`. The slot afterwards is what those workers leave when run in start order. It holds a match, or no candidate below the cursor matches. |
| Tuning.Optimization | main.cpp:51-83 | An already-set slot returns 0. Otherwise rounds run until a match is published or a round is slower than the one before, at the latest up to the first such round. The result is one less than the round count when the last round was slower, even if that round also published a match, and the round count otherwise. It is at least 1. The workers, in start order, cover consecutive chunks from 0, and the slot is what they leave. The slot is left unset only when no candidate in those chunks matches, and a published value is a match. |
| Forge.BadCrc | main.cpp:102-103 | `~crc32(injection, ~originalCrc32)` is the CRC register after `original + injection`. |
| Forge.ForgedCrc | main.cpp:102-103 | A candidate passes the worker's test if and only if the patched buffer `original + injection + LE4(uint32_t(v))` has the CRC-32 of `original`. |
| Forge.StepsFit | main.cpp:120-123 | `j ≤ t` steps of `(maxVal - MinVal) / t` stay within `maxVal - MinVal`. |
| Forge.SweepPartition | main.cpp:119-123 | Each sweep range lies in `[MinVal, 0xFFFFFFFF)`. The first starts at `MinVal`, each next one starts where the previous one stops, and the last stops at `0xFFFFFFFF`. |
| Forge.SweepDisjoint | main.cpp:120-123 | Ranges of different sweep workers do not overlap. |
| Forge.SweepOwnerFrom | main.cpp:119-123 | A candidate below the end of worker `j`'s range lies in the range of some worker `k ≤ j`. |
| Forge.SweepOwner | main.cpp:119-123 | Every candidate in `[MinVal, 0xFFFFFFFF)` lies in some sweep worker's range. |
| Forge.AssembleResult | main.cpp:98-100 | The fresh result buffer is `original`, then `injection`, then four zero bytes. |
| Forge.Sweep | main.cpp:119-130 | Worker `j` of `t` searches `[SweepBegin(j), SweepEnd(j))`, and the slot is what those workers leave when run in start order. Afterwards the slot holds a match in `[MinVal, 0xFFFFFFFF)`, or no candidate in that range matches. |
| Forge.FindPatch | main.cpp:105-131 | The tuning workers cover consecutive chunks from 0. If they published nothing, tuning ran up to the first slower round, no candidate in those chunks matches, and the sweep follows with `t` workers over `[SweepBegin(0, t, j), SweepEnd(0, t, j))`, starting again at 0 because `data.end` is still 0. If they published, no candidate before the last round's chunks matches, the published value lies within them, and no sweep runs. `t` is the thread count the stop rule settles on. The result is what all those workers leave in start order. A published value is a match. The sentinel means no candidate below `0xFFFFFFFF` matches. |
| Forge.PatchResult | main.cpp:113-116 | The assembled buffer is patched in place to `original + injection + LE4(uint32_t(v))` and returned. For a passing candidate its CRC-32 equals the original's. |
| Forge.Hack | main.cpp:96-137 | `hack` returns a buffer exactly when the search (tuning, then the sweep from 0 if tuning found nothing, with the same guarantees as `FindPatch`) published a value. The buffer is `original + injection` followed by the four bytes of that published value, and has the CRC-32 of `original`. Otherwise `hack` fails with "Can't hack", and no candidate below `0xFFFFFFFF` passes. |

## Left out

- Thread creation and joining, `std::atomic` and the console mutex (main.cpp:42, 56-69, 104-108, 124-130). Workers run one after another in start order. Interleavings in which a worker sees the slot change mid-range are not modelled.
- Console output: the progress fraction (floating point), the thread counts, "Success" and the timings (main.cpp:43-45, 58, 72, 76, 114, 132). This is I/O.
- The wall clock and `std::chrono::duration<double>` arithmetic (main.cpp:59, 70-71). They become the caller's `costs` sequence of natural numbers.
- Tuning.Optimization: requires that `costs` contain a rise within 1,000,000 rounds.
  - The source loops until a match is published or the time rises. A run where neither happens would exhaust `costs` in the model, and past about 10^6 rounds the 64-bit cursor would overflow.
  - Both outcomes are excluded rather than modelled.
- Forge.FindPatch: carries the same requirement on `costs` as Tuning.Optimization.
- Forge.Hack: carries the same requirement on `costs` as Tuning.Optimization. It also does not model a `size_t` overflow of `original.size() + injection.size() + 4`.
- The byte order of the host: the image of a `uint32_t` is taken to be little-endian, as main.cpp:24 copies the value's own storage. On a big-endian host the four bytes would be written in reverse order.
- The body of `crc32` is not part of this model (CRC32.hpp). The standard bitwise definition stands in for it, and its calling convention is inferred from main.cpp:102-103.
- `readFromFile` and `writeToFile` (IO.hpp) are not part of this model. `main`'s argument check, the fixed injection "He-he-he" and the exit codes (main.cpp:139-158) are left out too: they are command-line and file plumbing.
- The exception thrown at main.cpp:136 becomes the `Err` case of a `Result`, with the same message.
