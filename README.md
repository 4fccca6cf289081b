# multi_vector: a verified model of the per-worker collect/merge buffer

`mvec::multi_vector<t>` in `multi_vector.h` lets N worker threads each append to
a private partition. The threads then merge the partitions into one contiguous
output buffer, in worker-index order. A round has two phases:

- **Rendezvous** (`reserve_totalling`). Each worker increments the arrival counter `_reserved`.
  - After this, each worker writes 1 at its own index of `_offsets`, which serves as an arrival-flag array.
  - Worker 0 (the leader) spins until the flags add up to N.
  - The leader then overwrites the flags with the prefix sums of the partition sizes and sizes the output `_totallinged` to the total.
  - Finally it raises `_calculate_end`.
- **Merge** (`totalling`). Each worker copies its partition into its own slice of the output and clears the partition.
  - The worker then decrements `_reserved`.
  - The worker that brings the counter to 0 lowers `_calculate_end`.
  - That count reaching 0 is what `totalling_wait` waits for.

The model is the class `MVec.MultiVector<T>` in `multi_vector.dfy`. It has one
field per data member of the C++ class other than the mutex and the condition
variable:

- `vecs`
- `offsets`
- `totallinged`
- `reserved`
- `calculateEnd`

The worker count is the constant `N`. Under the mutex every operation is a
sequential update of these fields. Each blocking wait becomes the precondition
under which the code after it runs:

| wait in the source | precondition of |
|---|---|
| `_reserved == N` before a waiting worker writes its flag | `MarkArrived` |
| the flags summing to N before the leader goes on | `LeaderComputeOffsets` |
| `_calculate_end` before a follower returns | `Merge` |

`reserve_totalling` is split at its waits:

- `Arrive`: the resize, the increment and the last arrival's flag write.
- `MarkArrived`: a woken worker's flag write.
- `LeaderComputeOffsets`: the leader's offset loop and output resize.

The modules are:

- `Placement` (`placement.dfy`): the sequence facts behind the merge. These are partition sizes, prefix sums (`Offsets`), `Concat`, `std::vector::resize`, and the block copy (`Overwrite`). It proves that the blocks are disjoint, lie in the buffer and cover it, and that placing every block yields the concatenation.
- `ArrivalFlags` (`flags.dfy`): the leader's spin-exit test (`SpinExits`), and what it means when the flags start from zeros and when they start from stale values.
- `MVec` (`multi_vector.dfy`): the class.
  - The `size_t` counter wraps modulo 2^64 (`Inc`, `Dec`).
  - `resize` pads with the value-initialised element `zero`.
- `Rounds` (`rounds.dfy`): one whole round driven sequentially.
  - `Rendezvous` runs every arrival in any order, then the flag writes, then the leader.
  - `Merge` runs `Totalling` for every index in any order.
- `Scenarios` (`scenarios.dfy`): concrete rounds.
  - The five-worker demo in `main.cpp`.
  - The schedules behind the two findings below.

Two details of the code shape the model:

- `reserve_push` requests ⌊count/N⌋+1 elements per partition, computed in `size_t` arithmetic.
- Worker 0's `resize(N, 0)` keeps the entries that already exist, which are the previous round's offsets; only missing entries become 0.

## Model

| member | source | states |
|---|---|---|
| MVec.MultiVector.constructor | multi_vector.h:34-38 | N empty partitions; no offsets; empty output; counter 0; flag lowered |
| MVec.MultiVector.ReservePush | multi_vector.h:47-55 | None exactly when there are no workers; otherwise the value is below 2^64; when ⌊count/N⌋+1 does not wrap it is that value, and N partitions of that capacity hold more than count elements; when it wraps the value is 0; no logical state changes |
| MVec.MultiVector.PushBack | multi_vector.h:125-130 | v is appended to partition ind; every other partition, the offsets, the output and both counters are unchanged |
| MVec.MultiVector.Arrive | multi_vector.h:61-75 | with no workers nothing changes; otherwise the counter goes up by one modulo 2^64 and the call is the last arrival exactly when the counter reaches N; worker 0 first resizes the offsets to N, keeping the existing entries and appending zeros; the last arrival writes 1 at its own index |
| MVec.MultiVector.ArriveResetting | multi_vector.h:61-75 | as Arrive, except that worker 0 replaces the offsets by N zeros (the corrected arrival) |
| MVec.MultiVector.MarkArrived | multi_vector.h:76-81 | once all N have arrived, a woken worker's flag becomes 1 and nothing else changes |
| MVec.MultiVector.LeaderComputeOffsets | multi_vector.h:89-115 | after the spin exits: offsets are the prefix sums of the partition sizes, so offsets[0] is 0 and offsets[i+1] is offsets[i] plus the size of partition i; every block fits in the output; the output is resized to the total size, keeping its prefix and padding with zero; the flag is raised; partitions and counter are unchanged |
| MVec.MultiVector.Totalling | multi_vector.h:137-158 | with an empty output or an empty partition nothing changes, and the counter in particular is not decremented; otherwise the partition is copied to its block and every other output position is kept; the partition is cleared and no other partition changes; the counter goes down by one, and the flag is lowered when it reaches 0 |
| MVec.MultiVector.TotallingIntended | multi_vector.h:137-158 | as Totalling, but the counter is decremented on every path (the corrected completion bookkeeping) |
| MVec.MultiVector.Size | multi_vector.h:188-190 | the number of merged elements, the length of the output |
| MVec.MultiVector.Data | multi_vector.h:177-186 | the merged elements; exactly Size() of them |
| MVec.Inc | multi_vector.h:70 | `++` on a size_t stays below 2^64, adds one when there is no wrap, and wraps 2^64-1 to 0 |
| MVec.Dec | multi_vector.h:151 | `--` on a size_t subtracts one from a positive value and wraps 0 to 2^64-1 |
| Placement.Resize | multi_vector.h:66 | `vector::resize(n, fill)`: length n; existing entries below n are kept; the rest are fill |
| Placement.Overwrite | multi_vector.h:146 | the copy of a block at an offset: the length is kept; positions in the block hold the partition in order; others are unchanged |
| Placement.Sizes | multi_vector.h:108 | one entry per partition, equal to its size |
| Placement.OffsetsAreRunningSums | multi_vector.h:104-109 | the prefix sums start at 0; each block starts where the previous one ends; the last ends at the total |
| Placement.OffsetsFit | multi_vector.h:104-110 | each block lies inside an output of the total size |
| Placement.OffsetsDisjoint | multi_vector.h:104-109 | an earlier worker's block ends no later than a later worker's block starts |
| Placement.BlockCover | multi_vector.h:104-110 | every output position lies in some worker's block |
| Placement.ConcatLength | multi_vector.h:110 | the concatenation of the partitions has the total size |
| Placement.ConcatBlock | multi_vector.h:104-109 | element k of partition i sits at offset i plus k of the concatenation |
| Placement.PlacedStep | multi_vector.h:146 | copying one partition into its block keeps every block placed earlier |
| Placement.PlacedSkip | multi_vector.h:144 | an empty partition counts as placed without a copy |
| Placement.PlacedAll | multi_vector.h:144-147 | once every partition is placed, in whatever order, the output equals their concatenation in index order |
| ArrivalFlags.FlagsAllSet | multi_vector.h:93-100 | for 0/1 flags the sum is at most their count, and the spin exits exactly when all of them are 1 |
| ArrivalFlags.FreshFlagsSpin | multi_vector.h:93-100 | from all-zero flags, the spin exits if and only if every worker has written its flag |
| ArrivalFlags.StaleFlagsSpin | multi_vector.h:65-66 | over the offsets [_, 1] left over from a two-worker round, the spin exits when worker 0 alone has written its flag |
| Rounds.Rendezvous | multi_vector.h:61-123 | all workers arrive in any order, then the flags are written, then the leader runs: the partitions are unchanged, the offsets are the prefix sums, the output is resized to the total, the counter is N and the flag is raised |
| Rounds.MergeStep | multi_vector.h:137-158 | one worker's totalling keeps every earlier worker's block placed; the counter stays N minus the number of non-empty partitions visited |
| Rounds.Merge | multi_vector.h:137-171 | totalling for every index in any order: the output is the concatenation of the partitions, all partitions are empty and the offsets are kept; the counter reaches 0 (ending totalling_wait) exactly when no partition was empty; the flag is raised exactly while the counter is not 0 |
| Rounds.MergeIntended | multi_vector.h:137-171 | the same round with TotallingIntended: the concatenation, and the counter at 0 with the flag lowered whatever the sizes |
| Rounds.CopiedAll | multi_vector.h:144-151 | over a whole round, the number of decrements reaches N exactly when no partition was empty |
| Rounds.Indices | main.cpp:24-27 | the workers 0 .. n-1, each listed once |
| Scenarios.Demo | main.cpp:5-36 | five workers each pushing 0 .. 999: capacity 1001 per partition; 5000 outputs with output j equal to j mod 1000; the counter back at 0 |
| Scenarios.StaleFlagsRendezvous | multi_vector.h:65-115 | round 2 after a round with sizes [1, 1]: worker 0's flag alone ends the spin, and the leader publishes [0, 3] |
| Scenarios.StaleFlagsScenario | multi_vector.h:76-81 | worker 1's late flag write overwrites its offset; the output [10, 20, 12, 0] is not the concatenation [10, 11, 12, 20] |
| Scenarios.ResetFlagsScenario | multi_vector.h:65-66 | with the flags reset to zero, the same schedule's spin cannot end early and the output is [10, 11, 12, 20] |
| Scenarios.EmptyPartitionStalls | multi_vector.h:144 | worker 1 pushes nothing: the output is [7] but the counter stops at 1 and the flag stays raised |
| Scenarios.EmptyPartitionCompletes | multi_vector.h:144-157 | the same round with the corrected bookkeeping: the counter reaches 0 and the flag is lowered |

## Left out

- Threads are not modelled.
  - Not modelled: `std::mutex`, `std::condition_variable`, `wait`/`notify_all` and the unlocked spin loop (multi_vector.h:21-22, 68-100, 117-121, 150).
  - What the model has instead: each wait's exit condition is a precondition, and a round is a sequential run of the per-worker steps in any order of the workers.
- Interleavings inside a step are outside the model.
  - The unlocked `resize` at line 66.
  - The unlocked `memcpy` at line 146.
  - The model treats each step as atomic.
  - No data race is modelled.
- `totalling_wait` (multi_vector.h:164-171) appears only as its exit condition, the counter being 0, in the postconditions of `Merge` and `Demo`.
- The follower wait at multi_vector.h:117-121 appears as `Merge`'s precondition that `calculateEnd` is set.
- `memcpy` of raw bytes and the `is_trivially_copyable` static_assert (multi_vector.h:37, 146) are left out. The copy is element-wise (`Overwrite`).
- Vector capacity is left out. `ReservePush` returns the capacity it would request for each partition instead of running the reserve loop (lines 51-54), because capacity is not part of the logical contents.
- The debug-only bounds check that throws `located_exception` (multi_vector.h:139-141) is the precondition `ind < |offsets|` of `Totalling`. `error/located_exception.h` and `error/located_exception.cpp` are not part of this model.
- Out-of-bounds accesses, which are undefined behaviour in the source, are preconditions:
  - a non-zero worker being the last arrival before the offsets have length N (line 74);
  - a copy past the end of the output (line 146).
- Only the arrival counter and the capacity computation of `reserve_push` model `size_t` overflow.
  - Offsets and sizes are unbounded naturals, because a real buffer cannot hold 2^64 elements.
  - Because of that, `LeaderComputeOffsets` does not model wrap-around of `sum`.
  - The spin's running total `tmp` (multi_vector.h:92-98) is also a wrapping `size_t`; `SpinExits` uses the exact sum of the flags.
- ReservePush: does not model the `std::length_error` that `vector::reserve` throws for a capacity beyond `max_size()` (for example count = 2^63 with N = 1), because capacity and the reserve loop are not modelled.
- Data: returns the output buffer as a value. The non-const `data()` (multi_vector.h:177-179) hands callers a writable pointer into `_totallinged`; that aliasing and any writes through it are not modelled.
- `t{}`, the value `resize` initialises new output elements with, is the constructor parameter `zero`.
- The thread-spawning and joining in `main.cpp` are out of scope. `Demo` runs the same per-worker steps in index order.
- `Rendezvous` uses the as-written `Arrive`.
  - In a sequential schedule every flag is written before the leader's spin, so the stale entries cannot end the spin early there.
  - The early exit needs a follower that has been woken but has not yet taken the lock; `StaleFlagsRendezvous` builds that state step by step.

## Findings

| source | as written | input that shows it | evidently intended | confidence | as-written member | corrected member |
|---|---|---|---|---|---|---|
| multi_vector.h:144 | a worker with an empty partition, or any worker when the output is empty, returns before `--_reserved` | N = 2, worker 0 pushes 7, worker 1 pushes nothing; after both `totalling` calls the counter is 1 | every worker counts itself done, so `totalling_wait` returns and `_calculate_end` is lowered for the next round | high, not executed | Scenarios.EmptyPartitionStalls | Rounds.MergeIntended |
| multi_vector.h:65-66 | `_offsets.resize(N, 0)` keeps the previous round's offsets as flags | N = 2, round 1 sizes [1, 1] leave offsets [0, 1]; in round 2 (sizes [3, 1]) worker 1 arrives and waits, worker 0 arrives last, and the flags are already [1, 1]; the leader publishes [0, 3], worker 1 then writes its flag over offset 3, and the output is [10, 20, 12, 0] | the flags start at zero each round, so the spin exits only after every worker has written its flag | medium, not executed | Scenarios.StaleFlagsScenario | Scenarios.ResetFlagsScenario |

In the first row, the code as written is `MVec.MultiVector.Totalling`, and
`Rounds.Merge` states that the counter reaches 0 only when no partition was
empty. The corrected step is `MVec.MultiVector.TotallingIntended`.
`Scenarios.EmptyPartitionCompletes` shows the corrected round on the same input.

In the second row, the code as written is `MVec.MultiVector.Arrive` together
with `ArrivalFlags.StaleFlagsSpin`. The corrected arrival is
`MVec.MultiVector.ArriveResetting`. `ArrivalFlags.FreshFlagsSpin` proves that,
from zeroed flags, the spin exits if and only if every worker has written its flag.
The confidence in this row is medium because the bad schedule needs a particular
mutex hand-off. The woken worker 1 must take the mutex only after the leader has
re-locked at multi_vector.h:103 and published the offsets. If worker 1 takes the
mutex between the end of the spin and line 103, it writes its flag before the
offsets are computed, then waits at line 119, and the round merges correctly.
The same schedule with round-2 sizes [0, 3] is worse: the leader publishes
[0, 0], worker 1's late flag write makes its offset 1, and line 146 copies three
elements at offset 1 into a buffer of three, past its end. `Totalling`'s
precondition excludes that copy, so the model does not follow it further.
