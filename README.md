# Fenwick tree (binary indexed tree) in Dafny

This project models the binary indexed tree of the Rust `algorithm` crate
(`src/data_structures/binary_indexed_tree.rs`) and the public `lowbit`
helper of `src/utils.rs`, and proves the properties the code promises.

The tree keeps a 0-based array `tree` of `len` slots over some logical
values `v`. Slot `x >= 1` holds `v[x - lowbit(x) + 1] + ... + v[x]`, and slot 0
holds `v[0]` alone.
- `new` turns a vector of values into this array in place.
- `edit(index, delta)` walks up from `index`, adding `delta` to each slot it visits. After slot 0 it moves to slot 1. After a slot `j >= 1` it moves to `j + lowbit(j)`. It stops at the end of the array.
- `query_one(index)` walks down from `index` by subtracting `lowbit`. It adds up the slots it reads and so returns the prefix sum `v[0] + ... + v[index]`.
- `query_range(l, r)` is `query_one(r) - query_one(l)`, the sum over `(l, r]`.

Files, one module each:

- `bits.dfy` (`Bits`): 64-bit `usize` words and bitwise NOT and AND on them. It gives an
  arithmetic reference definition of "the lowest set bit" (`LowestSetBit`) and proves
  that `x & (!x + 1)` computes it.
- `utils.dfy` (`Utils`): the zero-guarded `utils::lowbit`.
- `binary_indexed_tree.dfy` (`BinaryIndexedTree`): the tree's private `lowbit` and the
  specification (range sums `Sum`, the range `Low(x)..x` each slot covers, the Fenwick
  invariant `IsFenwickOf`, the edit chain). It also has the in-place construction `Build`,
  the class `FenwickTree` with the array as an `array<int>` field and the logical values
  as a ghost field, and the lemmas.
- `scenarios.dfy` (`Scenarios`): the repository's unit tests and documentation examples
  written as verified methods over the model.

`FenwickTree.Valid()` states the class invariant. The array has `len` slots, `len` fits
in an `isize` (the largest length a Rust `Vec` can have when its element type is not zero-sized), and the array is the Fenwick
array of the logical values `vals`. Every state-changing method keeps it.

## Model

| member | source | states |
|---|---|---|
| Bits.AndNegationIsLowestSetBit | src/utils.rs:10 | in a word of m values (m a power of two), `x & (m - x)` is the value of the lowest set bit of x; with m = 2^64 this is `x & (!x + 1)` |
| Bits.LowestSetBitIsLargestPowerOfTwoDivisor | src/utils.rs:6-12 | for x > 0, lowbit(x) is a power of two that divides x with an odd quotient |
| Bits.SubtractingLowestSetBitClearsIt | src/utils.rs:6-12 | x - lowbit(x) equals `x & (x - 1)`: the step down clears exactly the lowest set bit |
| Bits.WordLimitIsPowerOfTwo | src/utils.rs:10 | 2^64, the number of `usize` values, is a power of two |
| Utils.Lowbit | src/utils.rs:6-12 | `utils::lowbit` returns 0 for 0; for x > 0 it returns a power of two dividing x with odd quotient, equal to the lowest set bit, with `x & (x - 1) == x - lowbit(x)` |
| Utils.LowbitExamples | src/utils.rs:1-5 | lowbit(0b0) == 0b0 and lowbit(0b100100) == 0b100 |
| BinaryIndexedTree.Lowbit | src/data_structures/binary_indexed_tree.rs:3-5 | the unguarded `x & (!x + 1)` is defined (no `usize` overflow) exactly for x != 0, and then it is the lowest set bit of x, between 1 and x |
| BinaryIndexedTree.LowbitsAgree | src/data_structures/binary_indexed_tree.rs:3-5 | the private `lowbit` and `utils::lowbit` agree on every x != 0 |
| BinaryIndexedTree.Build | src/data_structures/binary_indexed_tree.rs:14-20 | the folding loops of `new` turn an array of logical values, in place, into its Fenwick array |
| BinaryIndexedTree.FenwickTree.constructor | src/data_structures/binary_indexed_tree.rs:13-22 | `new` yields a valid tree of `len == |a|` slots representing exactly the values a |
| BinaryIndexedTree.FenwickTree.Edit | src/data_structures/binary_indexed_tree.rs:38-47 | `edit` as written adds delta to exactly the slots of the edit chain of index, keeps the tree valid, and leaves it representing `EditEffect(vals, index, delta)`; an index at or past the end changes nothing |
| BinaryIndexedTree.ApplyEditStep | src/data_structures/binary_indexed_tree.rs:39-46 | one loop step: bumping slot j and editing on from j's successor (1 after 0, j + lowbit(j) otherwise) is editing from j |
| BinaryIndexedTree.ApplyEditPastEnd | src/data_structures/binary_indexed_tree.rs:39 | a walk that starts at or past `len` changes no slot |
| BinaryIndexedTree.EditChainFollowsCover | src/data_structures/binary_indexed_tree.rs:43-45 | from any slot j covering a position k >= 1, the upward walk from j visits exactly the slots at or above j that cover k |
| BinaryIndexedTree.CoverLemma | src/data_structures/binary_indexed_tree.rs:43-45 | for k >= 1, the slots `edit(k, _)` writes are exactly the slots below len whose range contains k, in both directions |
| BinaryIndexedTree.EditPreservesFenwick | src/data_structures/binary_indexed_tree.rs:38-47 | adding d along the edit chain of k turns the Fenwick array of v into the Fenwick array of `EditEffect(v, k, d)`, for every k |
| BinaryIndexedTree.EditAtZeroPreservesFenwick | src/data_structures/binary_indexed_tree.rs:40-42 | with more than one slot, the edit from index 0 (slot 0, then the whole chain of slot 1) leaves the Fenwick array of v with d added at positions 0 and 1 |
| BinaryIndexedTree.EditAtPositivePreservesFenwick | src/data_structures/binary_indexed_tree.rs:43-45 | for 1 <= k < len, the edit leaves the Fenwick array of v with d added at position k only |
| BinaryIndexedTree.EditShiftsPrefixSums | src/data_structures/binary_indexed_tree.rs:38-47 | for k >= 1, after the edit every prefix sum from k on is larger by d and every earlier one is unchanged |
| BinaryIndexedTree.EditAtZeroCountsTwice | src/data_structures/binary_indexed_tree.rs:40-42 | after `edit(0, d)` as written, prefix sum 0 is larger by d and every later prefix sum by 2d |
| BinaryIndexedTree.EditUndo | src/data_structures/binary_indexed_tree.rs:29-36 | `edit(k, d)` then `edit(k, -d)` restores the array exactly, for every k |
| BinaryIndexedTree.EditEffectUndo | src/data_structures/binary_indexed_tree.rs:29-36 | ... and restores the represented values |
| BinaryIndexedTree.SlotZeroUpdate | src/data_structures/binary_indexed_tree.rs:40-42 | adding d to slot 0 alone turns the Fenwick array of v into that of v with d added at position 0 |
| BinaryIndexedTree.FenwickTree.EditFixed | src/data_structures/binary_indexed_tree.rs:38-47 | the corrected edit keeps the tree valid and adds delta to the value at index alone (nothing for an index past the end) |
| BinaryIndexedTree.PointUpdateShiftsPrefixSums | src/data_structures/binary_indexed_tree.rs:38-47 | after the corrected edit at any k, index 0 included, the prefix sums from k on are larger by exactly d |
| BinaryIndexedTree.FenwickTree.QueryOne | src/data_structures/binary_indexed_tree.rs:60-67 | `query_one(index)` returns the sum of the slots on the walk down from index, which is `vals[0] + ... + vals[index]`; its loop provably reads the slots of `QueryPath(index)` in order |
| BinaryIndexedTree.WalkSumIsPrefixSum | src/data_structures/binary_indexed_tree.rs:61-65 | on a Fenwick array the walk down from i telescopes to the prefix sum up to i |
| BinaryIndexedTree.QueryPathDecreases | src/data_structures/binary_indexed_tree.rs:62-65 | the slots `query_one` reads strictly decrease, from index down to 0 |
| BinaryIndexedTree.QueryTraceStep | src/data_structures/binary_indexed_tree.rs:62-65 | reading slot i and moving to i - lowbit(i) leaves exactly the rest of `QueryPath`; the loop of `FenwickTree.QueryOne` keeps a ghost record of the slots it has read and uses this lemma to show that they follow `QueryPath(index)` |
| BinaryIndexedTree.FenwickTree.QueryRange | src/data_structures/binary_indexed_tree.rs:80-84 | `query_range(l, r)` is the sum over (l, r] when l <= r, and minus the sum over (r, l] when r < l |
| BinaryIndexedTree.PrefixDifferenceIsRangeSum | src/data_structures/binary_indexed_tree.rs:80-84 | the difference of the prefix sums up to r and up to l is the range sum over (l, r], negated when r < l |
| Scenarios.QueryOneOfCopies | tests/data_structures.rs:5-7 | a tree built from n copies of c answers c * (i + 1) to `query_one(i)` |
| Scenarios.QueryOneScenario | tests/data_structures.rs:3-11 | the `query_one` test: 2, 20, 30, 40 over twenty copies of 2 |
| Scenarios.QueryRangeScenario | tests/data_structures.rs:13-21 | the `query_range` test: 0, 10, 10, 18 over twenty copies of 2 |
| Scenarios.EditScenario | tests/data_structures.rs:23-35 | the `query_edit` test: 4, 20, 33, 53 |
| Scenarios.EditScenarioSums | tests/data_structures.rs:31-34 | the prefix sums after adding 3 at 5 and 10 at 10 to twenty copies of 2 are 33 (up to 14) and 53 (up to 19) |
| Scenarios.EditThenQuery | src/data_structures/binary_indexed_tree.rs:38-67 | an edit followed by a prefix query keeps the tree valid and answers the prefix sum of `EditEffect` |
| Scenarios.EditAtZeroAndUndo | src/data_structures/binary_indexed_tree.rs:32-36 | on copies of 2, `edit(0, 2)` then `query_one(0)` gives 4; `edit(0, -2)` then `query_one(9)` gives 20, and the values are restored |
| Scenarios.QueryOneDocExample | src/data_structures/binary_indexed_tree.rs:54-58 | the documented `query_one` example: 2 and 20 on ten copies of 2 |
| Scenarios.QueryRangeDocExample | src/data_structures/binary_indexed_tree.rs:74-78 | the documented `query_range` example: 0 and 10 on ten copies of 2 |
| Scenarios.EditDocExample | src/data_structures/binary_indexed_tree.rs:29-36 | the documented `edit` example: 4, then 20 after the undo |
| Scenarios.EditAtZeroCounterexample | src/data_structures/binary_indexed_tree.rs:40-42 | on `[2, 2]`, `edit(0, 2)` as written makes `query_one(1)` return 8 |
| Scenarios.EditFixedAtZero | src/data_structures/binary_indexed_tree.rs:40-42 | with the corrected edit, the same calls return 6 |

## Left out

- The element type `T` is generic over `AddAssign + SubAssign + Copy`. The model fixes it to unbounded `int`, so the overflow of a fixed-width `T` is not modelled. The tests use `i32` without coming near its range.
- `usize` is modelled as a 64-bit `Word`. `isize::MAX` bounds the length, as it does for every `Vec` whose element type is not zero-sized. Under that bound `index + lowbit(index)` cannot overflow, and the verifier checks this at the call site. The private `lowbit`'s overflow at 0 appears as its precondition `x != 0`.
- BinaryIndexedTree.FenwickTree.constructor: its `requires |a| <= ISIZE_MAX` excludes the longer vectors (up to `usize::MAX` elements) that a zero-sized `T` allows, and with them the `usize` overflow of `index + lowbit(index)` in `edit` that such a length could cause; the model's `int` values are never zero-sized.
- `query_one` and `query_range` panic on an index `>= len` (out-of-bounds access). The model states the corresponding preconditions. `edit` does not panic on such an index, and the model accepts it too.
- `new` takes the `Vec` by move. The constructor takes a sequence and copies it into a fresh array, which `Build` then folds in place. No aliasing with the caller's vector is modelled.
- `FenwickTree.Edit`: the contract states the set of slots the walk writes (`EditChain`), not the order it writes them in. The order appears only in the loop, as ascending indices.
- The O(log n) cost of each operation is not modelled.
- The tests and documentation examples appear as verified methods over the model. They are not Rust test harness code.

## Findings

| source | as written | input that shows it | evidently intended | confidence | as-written member | corrected member |
|---|---|---|---|---|---|---|
| src/data_structures/binary_indexed_tree.rs:41-42 | after slot 0, `edit` moves to slot 1 and walks that slot's whole chain (1, 2, 4, ...). Slot 0 is the only slot covering position 0, so the edit also adds delta to position 1. Every prefix sum from index 1 on then grows by 2 * delta | `new(vec![2, 2])`, then `edit(0, 2)`: `query_one(1)` is 8, not 6 | `edit(0, d)` changes slot 0 only | not executed | Scenarios.EditAtZeroCounterexample | BinaryIndexedTree.FenwickTree.EditFixed |

The as-written behaviour is proved in general by `BinaryIndexedTree.EditAtZeroCountsTwice` and `BinaryIndexedTree.EditAtZeroPreservesFenwick`. The corrected edit is `BinaryIndexedTree.FenwickTree.EditFixed`, which `Scenarios.EditFixedAtZero` exercises. The repository's own `query_edit` test and the `edit` documentation example do not reveal the defect. Each undoes the edit at index 0 before reading any prefix sum past index 0. `FenwickTree.Edit` follows the code as written.
