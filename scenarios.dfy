/**
 * The repository's test and documentation scenarios, restated as
 * verified methods over the model: each method builds a tree from copies of 2, performs the same
 * calls and promises the same answers.
 */
module Scenarios {
  import opened Bits
  import opened BinaryIndexedTree

  function Copies(n: nat, c: int): (r: seq<int>)
    ensures |r| == n && forall j :: 0 <= j < n ==> r[j] == c
  {
    seq(n, _ => c)
  }

  /** A tree built from n copies of c answers c * (i + 1) for every prefix query i < n. */
  method QueryOneOfCopies(n: nat, c: int, i: nat) returns (q: int)
    requires i < n <= ISIZE_MAX
    ensures q == c * (i + 1)
  {
    var t := new FenwickTree(Copies(n, c));
    q := t.QueryOne(i);
    SumOfConstant(Copies(n, c), c, 0, i + 1);
  }

  /** The `query_one` test: prefix sums 2, 20, 30, 40 over twenty copies of 2. */
  method QueryOneScenario() returns (q0: int, q9: int, q14: int, q19: int)
    ensures q0 == 2 && q9 == 20 && q14 == 30 && q19 == 40
  {
    var twos := Copies(20, 2);
    var t := new FenwickTree(twos);
    q0 := t.QueryOne(0);
    q9 := t.QueryOne(9);
    q14 := t.QueryOne(14);
    q19 := t.QueryOne(19);
    SumOfConstant(twos, 2, 0, 1);
    SumOfConstant(twos, 2, 0, 10);
    SumOfConstant(twos, 2, 0, 15);
    SumOfConstant(twos, 2, 0, 20);
  }

  /** The `query_range` test: (0,0], (0,5], (5,10], (10,19] over twenty copies of 2. */
  method QueryRangeScenario() returns (r0: int, r1: int, r2: int, r3: int)
    ensures r0 == 0 && r1 == 10 && r2 == 10 && r3 == 18
  {
    var twos := Copies(20, 2);
    var t := new FenwickTree(twos);
    r0 := t.QueryRange(0, 0);
    r1 := t.QueryRange(0, 5);
    r2 := t.QueryRange(5, 10);
    r3 := t.QueryRange(10, 19);
    SumOfConstant(twos, 2, 1, 6);
    SumOfConstant(twos, 2, 6, 11);
    SumOfConstant(twos, 2, 11, 20);
  }

  /** The `query_edit` test, with the edits at index 0 taken as the code performs them. */
  method EditScenario() returns (q0: int, q9: int, q14: int, q19: int)
    ensures q0 == 4 && q9 == 20 && q14 == 33 && q19 == 53
  {
    var twos := Copies(20, 2);
    var t := new FenwickTree(twos);
    q0, q9 := EditAtZeroAndUndo(t, twos);
    q14 := EditThenQuery(t, 5, 3, 14);
    q19 := EditThenQuery(t, 10, 10, 19);
    EditScenarioSums(twos);
  }

  /** The prefix sums the `query_edit` test expects after adding 3 at 5, then 10 at 10, to twenty copies of 2. */
  lemma EditScenarioSums(twos: seq<int>)
    requires |twos| == 20 && forall j :: 0 <= j < |twos| ==> twos[j] == 2
    ensures Sum(EditEffect(twos, 5, 3), 0, 15) == 33
    ensures Sum(EditEffect(EditEffect(twos, 5, 3), 10, 10), 0, 20) == 53
  {
    var once := EditEffect(twos, 5, 3);
    SumOfConstant(twos, 2, 0, 15);
    SumOfConstant(twos, 2, 0, 20);
    EditShiftsPrefixSums(twos, 5, 3, 14);
    EditShiftsPrefixSums(twos, 5, 3, 19);
    EditShiftsPrefixSums(once, 10, 10, 19);
  }

  /** `edit(k, d)` followed by `query_one(i)`. */
  method EditThenQuery(t: FenwickTree, k: Word, d: int, i: nat) returns (q: int)
    requires t.Valid() && i < t.len
    modifies t.tree, t`vals
    ensures t.Valid() && t.tree == old(t.tree) && t.len == old(t.len)
    ensures t.vals == EditEffect(old(t.vals), k, d)
    ensures q == Sum(t.vals, 0, i + 1)
  {
    t.Edit(k, d);
    q := t.QueryOne(i);
  }

  /** Edit index 0 by 2, read prefix 0, undo the edit, read prefix 9: on copies of 2 this gives 4, then 20. */
  method EditAtZeroAndUndo(t: FenwickTree, twos: seq<int>) returns (q0: int, q9: int)
    requires t.Valid() && t.vals == twos && 10 <= |twos|
    requires forall j :: 0 <= j < |twos| ==> twos[j] == 2
    modifies t.tree, t`vals
    ensures t.Valid() && t.vals == twos && t.tree == old(t.tree)
    ensures q0 == 4 && q9 == 20
  {
    q0 := EditThenQuery(t, 0, 2, 0);
    q9 := EditThenQuery(t, 0, -2, 9);
    EditEffectUndo(twos, 0, 2);
    SumOfConstant(twos, 2, 0, 10);
  }

  /** The documented `query_one` example on ten copies of 2. */
  method QueryOneDocExample() returns (q0: int, q9: int)
    ensures q0 == 2 && q9 == 20
  {
    var twos := Copies(10, 2);
    var t := new FenwickTree(twos);
    q0 := t.QueryOne(0);
    q9 := t.QueryOne(9);
    SumOfConstant(twos, 2, 0, 1);
    SumOfConstant(twos, 2, 0, 10);
  }

  /** The documented `query_range` example on ten copies of 2. */
  method QueryRangeDocExample() returns (r0: int, r5: int)
    ensures r0 == 0 && r5 == 10
  {
    var twos := Copies(10, 2);
    var t := new FenwickTree(twos);
    r0 := t.QueryRange(0, 0);
    r5 := t.QueryRange(0, 5);
    SumOfConstant(twos, 2, 1, 6);
  }

  /** The documented `edit` example on ten copies of 2. */
  method EditDocExample() returns (q0: int, q9: int)
    ensures q0 == 4 && q9 == 20
  {
    var twos := Copies(10, 2);
    var t := new FenwickTree(twos);
    q0, q9 := EditAtZeroAndUndo(t, twos);
  }

  /**
   * The edit at index 0 as written, on two copies of 2: afterwards the
   * prefix sum up to index 1 is 8, not the 6 that adding 2 to one value gives.
   */
  method EditAtZeroCounterexample() returns (q1: int)
    ensures q1 == 8
  {
    var t := new FenwickTree([2, 2]);
    t.Edit(0, 2);
    q1 := t.QueryOne(1);
  }

  /** The corrected edit on the same input gives 6. */
  method EditFixedAtZero() returns (q1: int)
    ensures q1 == 6
  {
    var t := new FenwickTree([2, 2]);
    t.EditFixed(0, 2);
    q1 := t.QueryOne(1);
  }
}
