/**
 * A Fenwick tree (binary indexed tree) over a 0-based array of integers.
 *
 * Slot x >= 1 of the array holds the sum of the logical values at the
 * positions (x - lowbit(x), x]; slot 0 holds the value at position 0 alone.
 * A prefix query walks down from its index by subtracting lowbit, an edit
 * walks up by adding lowbit; index 0 has the hard-wired successor 1.
 */
module BinaryIndexedTree {
  import opened Bits
  import Utils

  /**
   * The tree's private `lowbit`, the bit expression `x & (!x + 1)` with no
   * zero guard. For x == 0 the increment `!x + 1` overflows a `usize`, so
   * the precondition is exactly what keeps the expression in range; the
   * verifier checks it at every call site.
   */
  function Lowbit(x: Word): (r: Word)
    requires x != 0
    ensures 1 <= r <= x
    ensures r == LowestSetBit(x)
  {
    var negated: Word := Not(x) + 1;
    WordLimitIsPowerOfTwo();
    AndNegationIsLowestSetBit(x, WORD_LIMIT);
    And(x, negated)
  }

  /** The private copy and `utils::lowbit` agree wherever the private one is defined. */
  lemma LowbitsAgree(x: Word)
    requires x != 0
    ensures Lowbit(x) == Utils.Lowbit(x)
  {
  }

  // ---------------------------------------------------------------------
  // Specification: sums of logical values and the ranges the slots cover

  /** v[lo] + ... + v[hi - 1]. */
  function Sum(v: seq<int>, lo: nat, hi: nat): int
    requires lo <= hi <= |v|
    decreases hi - lo
  {
    if lo == hi then 0 else Sum(v, lo, hi - 1) + v[hi - 1]
  }

  lemma {:induction false} SumSplit(v: seq<int>, lo: nat, mid: nat, hi: nat)
    requires lo <= mid <= hi <= |v|
    ensures Sum(v, lo, hi) == Sum(v, lo, mid) + Sum(v, mid, hi)
    decreases hi
  {
    if mid < hi {
      SumSplit(v, lo, mid, hi - 1);
    }
  }

  /** Adding d to one logical value changes exactly the sums whose range contains it. */
  lemma {:induction false} SumPointUpdate(v: seq<int>, k: nat, d: int, lo: nat, hi: nat)
    requires k < |v| && lo <= hi <= |v|
    ensures Sum(v[k := v[k] + d], lo, hi) == Sum(v, lo, hi) + (if lo <= k < hi then d else 0)
    decreases hi
  {
    if lo < hi {
      SumPointUpdate(v, k, d, lo, hi - 1);
    }
  }

  /** Every prefix sum of a sequence of copies of c is c times its length. */
  lemma {:induction false} SumOfConstant(v: seq<int>, c: int, lo: nat, hi: nat)
    requires lo <= hi <= |v|
    requires forall j :: 0 <= j < |v| ==> v[j] == c
    ensures Sum(v, lo, hi) == c * (hi - lo)
    decreases hi
  {
    if lo < hi {
      SumOfConstant(v, c, lo, hi - 1);
      assert c * (hi - lo) == c * (hi - 1 - lo) + c;
    }
  }

  /** The first position slot x covers: slot x >= 1 covers (x - lowbit(x), x], slot 0 covers [0, 0]. */
  function Low(x: nat): (r: nat)
    ensures r <= x
    ensures r == 0 <==> x == 0
  {
    if x == 0 then 0 else x - LowestSetBit(x) + 1
  }

  /** Slot x covers position k. */
  predicate Covers(x: nat, k: nat) {
    Low(x) <= k <= x
  }

  /** t is the Fenwick array of the logical values v. */
  ghost predicate IsFenwickOf(t: seq<int>, v: seq<int>) {
    && |t| == |v|
    && forall x :: 0 <= x < |t| ==> t[x] == Sum(v, Low(x), x + 1)
  }

  // ---------------------------------------------------------------------
  // The index chains walked by `query_one` and `edit`

  /** The slots `query_one(i)` reads, in order: i, i - lowbit(i), ..., 0. */
  function QueryPath(i: nat): (p: seq<nat>)
    ensures |p| >= 1 && p[0] == i && p[|p| - 1] == 0
    ensures forall j :: 0 <= j < |p| ==> p[j] <= i
    decreases i
  {
    if i == 0 then [0] else [i] + QueryPath(i - LowestSetBit(i))
  }

  /** The value `query_one(i)` accumulates: slot i plus the walk from i - lowbit(i), down to slot 0. */
  function WalkSum(t: seq<int>, i: nat): int
    requires i < |t|
    decreases i
  {
    t[i] + if i == 0 then 0 else WalkSum(t, i - LowestSetBit(i))
  }

  /** The slots `edit(k, _)` writes on a tree of length n: k, then 1 after 0 and j + lowbit(j) after j >= 1, while below n. */
  function EditChain(k: nat, n: nat): (c: set<nat>)
    ensures forall x :: x in c ==> k <= x < n
    ensures k < n <==> k in c
    decreases n - k
  {
    if k >= n then {} else {k} + EditChain(if k == 0 then 1 else k + LowestSetBit(k), n)
  }

  /** t with d added to every slot in s. */
  function Bump(t: seq<int>, s: set<nat>, d: int): (r: seq<int>)
    ensures |r| == |t|
    ensures forall x :: 0 <= x < |t| ==> r[x] == t[x] + (if x in s then d else 0)
  {
    seq(|t|, x requires 0 <= x < |t| => t[x] + (if x in s then d else 0))
  }

  /** The array after adding d to every slot on the edit chain of k. */
  function ApplyEdit(t: seq<int>, k: nat, d: int): (r: seq<int>)
    ensures |r| == |t|
    ensures forall x :: 0 <= x < |t| && x !in EditChain(k, |t|) ==> r[x] == t[x]
    ensures forall x :: 0 <= x < |t| && x in EditChain(k, |t|) ==> r[x] == t[x] + d
  {
    Bump(t, EditChain(k, |t|), d)
  }

  /** One step of the edit walk: bumping slot j and then editing from j's successor is editing from j. */
  lemma ApplyEditStep(t: seq<int>, j: nat, next: nat, d: int)
    requires j < |t| && next == if j == 0 then 1 else j + LowestSetBit(j)
    ensures ApplyEdit(t[j := t[j] + d], next, d) == ApplyEdit(t, j, d)
  {
    assert EditChain(j, |t|) == {j} + EditChain(next, |t|);
    var a, b := ApplyEdit(t[j := t[j] + d], next, d), ApplyEdit(t, j, d);
    forall x | 0 <= x < |t|
      ensures a[x] == b[x]
    {
    }
  }

  /** An edit walk that starts at or past the end changes nothing. */
  lemma ApplyEditPastEnd(t: seq<int>, k: nat, d: int)
    requires |t| <= k
    ensures ApplyEdit(t, k, d) == t
  {
    var a := ApplyEdit(t, k, d);
    assert forall x :: 0 <= x < |t| ==> a[x] == t[x];
  }

  /**
   * The logical values that `edit(k, d)` as written leaves the tree
   * representing: position k gains d, except that for k == 0 on a tree
   * longer than one slot, positions 0 and 1 both gain d (the step from
   * index 0 to index 1 runs the whole edit path of position 1 as well).
   * An index at or past the end changes nothing.
   */
  function EditEffect(v: seq<int>, k: nat, d: int): (r: seq<int>)
    ensures |r| == |v|
    ensures forall j :: 0 <= j < |v| && j != k && !(k == 0 && j == 1) ==> r[j] == v[j]
    ensures k < |v| ==> r[k] == v[k] + d
    ensures k == 0 && |v| > 1 ==> r[1] == v[1] + d
    ensures |v| <= k ==> r == v
  {
    if |v| <= k then v
    else if k == 0 && |v| > 1 then v[0 := v[0] + d][1 := v[1] + d]
    else v[k := v[k] + d]
  }

  // ---------------------------------------------------------------------
  // Properties of the chains

  /** `query_one` visits strictly decreasing slots. */
  lemma {:induction false} QueryPathDecreases(i: nat)
    ensures forall a, b :: 0 <= a < b < |QueryPath(i)| ==> QueryPath(i)[b] < QueryPath(i)[a]
    decreases i
  {
    if i > 0 {
      var p, q := QueryPath(i), QueryPath(i - LowestSetBit(i));
      QueryPathDecreases(i - LowestSetBit(i));
      forall a, b | 0 <= a < b < |p|
        ensures p[b] < p[a]
      {
        assert p[b] == q[b - 1];
        if a > 0 {
          assert p[a] == q[a - 1];
        }
      }
    }
  }

  /** Recording slot i as read leaves the rest of the walk from i still to go. */
  lemma QueryTraceStep(read: seq<nat>, i: nat)
    requires i > 0
    ensures (read + [i]) + QueryPath(i - LowestSetBit(i)) == read + QueryPath(i)
  {
    assert QueryPath(i) == [i] + QueryPath(i - LowestSetBit(i));
  }

  /** A query walk telescopes: it sums to the prefix sum up to i. */
  lemma {:induction false} WalkSumIsPrefixSum(t: seq<int>, v: seq<int>, i: nat)
    requires IsFenwickOf(t, v) && i < |t|
    ensures WalkSum(t, i) == Sum(v, 0, i + 1)
    decreases i
  {
    if i > 0 {
      var n := i - LowestSetBit(i);
      WalkSumIsPrefixSum(t, v, n);
      assert t[i] == Sum(v, n + 1, i + 1);
      SumSplit(v, 0, n + 1, i + 1);
    } else {
      assert t[0] == Sum(v, 0, 1);
    }
  }

  /**
   * The Fenwick cover lemma, from any slot j that covers position k >= 1:
   * the edit chain from j is exactly the slots at or above j, below n, that
   * cover k.
   */
  lemma {:induction false} EditChainFollowsCover(j: nat, k: nat, n: nat)
    requires 1 <= k && Covers(j, k)
    ensures forall x: nat :: x in EditChain(j, n) <==> j <= x < n && Covers(x, k)
    decreases n - j
  {
    if j < n {
      var next := j + LowestSetBit(j);
      LowestSetBitGrowsAlongStep(j);
      assert Covers(next, k);
      EditChainFollowsCover(next, k, n);
      forall x | j < x < next
        ensures !Covers(x, k)
      {
        LowestSetBitOfSumBelow(j, x - j);
      }
      assert EditChain(j, n) == {j} + EditChain(next, n);
    }
  }

  /** For 1 <= k, the slots `edit(k, _)` visits are exactly the slots below n that cover k. */
  lemma CoverLemma(k: nat, n: nat)
    requires 1 <= k
    ensures forall x: nat :: x in EditChain(k, n) <==> x < n && Covers(x, k)
  {
    EditChainFollowsCover(k, k, n);
  }

  /** Adding d along the edit chain of k turns the Fenwick array of v into the Fenwick array of EditEffect(v, k, d). */
  lemma EditPreservesFenwick(t: seq<int>, v: seq<int>, k: nat, d: int)
    requires IsFenwickOf(t, v)
    ensures IsFenwickOf(ApplyEdit(t, k, d), EditEffect(v, k, d))
  {
    if |t| <= k {
      ApplyEditPastEnd(t, k, d);
    } else if k == 0 && |t| > 1 {
      EditAtZeroPreservesFenwick(t, v, d);
    } else if k == 0 {
      assert EditChain(0, |t|) == {0};
      SumPointUpdate(v, 0, d, 0, 1);
    } else {
      EditAtPositivePreservesFenwick(t, v, k, d);
    }
  }

  /** From index 0 the edit chain is slot 0 and then the chain of position 1. */
  lemma EditAtZeroPreservesFenwick(t: seq<int>, v: seq<int>, d: int)
    requires IsFenwickOf(t, v) && 1 < |t|
    ensures IsFenwickOf(ApplyEdit(t, 0, d), v[0 := v[0] + d][1 := v[1] + d])
  {
    var n := |t|;
    var t', v1 := ApplyEdit(t, 0, d), v[0 := v[0] + d];
    CoverLemma(1, n);
    assert EditChain(0, n) == {0} + EditChain(1, n);
    forall x | 0 <= x < n
      ensures t'[x] == Sum(v1[1 := v1[1] + d], Low(x), x + 1)
    {
      SumPointUpdate(v, 0, d, Low(x), x + 1);
      SumPointUpdate(v1, 1, d, Low(x), x + 1);
    }
  }

  /** From k >= 1 the edit chain is exactly the slots covering k. */
  lemma EditAtPositivePreservesFenwick(t: seq<int>, v: seq<int>, k: nat, d: int)
    requires IsFenwickOf(t, v) && 1 <= k < |t|
    ensures IsFenwickOf(ApplyEdit(t, k, d), v[k := v[k] + d])
  {
    var t' := ApplyEdit(t, k, d);
    CoverLemma(k, |t|);
    forall x | 0 <= x < |t|
      ensures t'[x] == Sum(v[k := v[k] + d], Low(x), x + 1)
    {
      SumPointUpdate(v, k, d, Low(x), x + 1);
    }
  }

  /** Adding d to slot 0 alone turns the Fenwick array of v into the one of v with d added at position 0. */
  lemma SlotZeroUpdate(t: seq<int>, v: seq<int>, d: int)
    requires IsFenwickOf(t, v) && |t| > 0
    ensures IsFenwickOf(t[0 := t[0] + d], v[0 := v[0] + d])
  {
    forall x | 0 <= x < |t|
      ensures t[0 := t[0] + d][x] == Sum(v[0 := v[0] + d], Low(x), x + 1)
    {
      SumPointUpdate(v, 0, d, Low(x), x + 1);
    }
  }

  /** With k >= 1, an edit raises every prefix sum from k on by d and leaves the ones before k alone. */
  lemma EditShiftsPrefixSums(v: seq<int>, k: nat, d: int, i: nat)
    requires 1 <= k < |v| && i < |v|
    ensures Sum(EditEffect(v, k, d), 0, i + 1) == Sum(v, 0, i + 1) + (if k <= i then d else 0)
  {
    SumPointUpdate(v, k, d, 0, i + 1);
  }

  /** With k == 0 the edit as written raises prefix sum 0 by d and every later prefix sum by 2d. */
  lemma EditAtZeroCountsTwice(v: seq<int>, d: int, i: nat)
    requires 1 < |v| && i < |v|
    ensures Sum(EditEffect(v, 0, d), 0, i + 1) == Sum(v, 0, i + 1) + (if i == 0 then d else 2 * d)
  {
    var v1 := v[0 := v[0] + d];
    assert EditEffect(v, 0, d) == v1[1 := v1[1] + d];
    SumPointUpdate(v, 0, d, 0, i + 1);
    SumPointUpdate(v1, 1, d, 0, i + 1);
  }

  /** A point update at any k, index 0 included, shifts the prefix sums from k on by exactly d. */
  lemma PointUpdateShiftsPrefixSums(v: seq<int>, k: nat, d: int, i: nat)
    requires k < |v| && i < |v|
    ensures Sum(v[k := v[k] + d], 0, i + 1) == Sum(v, 0, i + 1) + (if k <= i then d else 0)
  {
    SumPointUpdate(v, k, d, 0, i + 1);
  }

  /** The difference of the prefix sums up to r and up to l is the sum over (l, r], negated when r < l. */
  lemma PrefixDifferenceIsRangeSum(v: seq<int>, l: nat, r: nat)
    requires l < |v| && r < |v|
    ensures l <= r ==> Sum(v, 0, r + 1) - Sum(v, 0, l + 1) == Sum(v, l + 1, r + 1)
    ensures r < l ==> Sum(v, 0, r + 1) - Sum(v, 0, l + 1) == -Sum(v, r + 1, l + 1)
  {
    if l <= r {
      SumSplit(v, 0, l + 1, r + 1);
    } else {
      SumSplit(v, 0, r + 1, l + 1);
    }
  }

  /** `edit(k, d)` followed by `edit(k, -d)` restores the array exactly, for every k. */
  lemma EditUndo(t: seq<int>, k: nat, d: int)
    ensures ApplyEdit(ApplyEdit(t, k, d), k, -d) == t
  {
    var r := ApplyEdit(ApplyEdit(t, k, d), k, -d);
    assert forall x :: 0 <= x < |t| ==> r[x] == t[x];
  }

  /** ...and so restores the logical values the tree represents. */
  lemma EditEffectUndo(v: seq<int>, k: nat, d: int)
    ensures EditEffect(EditEffect(v, k, d), k, -d) == v
  {
  }

  // ---------------------------------------------------------------------
  // Construction in place

  /**
   * `new`'s folding loops: for x from len - 1 down to 1, add the slots
   * x - lowbit(x) + 1 .. x - 1 into slot x. Those slots are still
   * unprocessed, so they still hold logical values.
   */
  method Build(t: array<int>)
    requires t.Length <= ISIZE_MAX
    modifies t
    ensures IsFenwickOf(t[..], old(t[..]))
  {
    ghost var a := t[..];
    var len := t.Length;
    var x := len;
    while x > 1
      invariant x <= len
      invariant forall y :: 0 <= y < len ==> t[y] == (if 1 <= y && x <= y then Sum(a, Low(y), y + 1) else a[y])
    {
      x := x - 1;
      var i := x - Lowbit(x) + 1;
      while i < x
        invariant Low(x) <= i <= x
        invariant t[x] == a[x] + Sum(a, Low(x), i)
        invariant forall y :: 0 <= y < len && y != x ==> t[y] == (if x < y then Sum(a, Low(y), y + 1) else a[y])
      {
        var tmp := t[i];
        t[x] := t[x] + tmp;
        i := i + 1;
      }
    }
  }

  // ---------------------------------------------------------------------
  // The structure

  class FenwickTree {
    var tree: array<int>
    var len: nat
    /** The logical values the tree represents. */
    ghost var vals: seq<int>

    ghost predicate Valid()
      reads this, tree
    {
      && tree.Length == len == |vals|
      && len <= ISIZE_MAX
      && IsFenwickOf(tree[..], vals)
    }

    /** `new`: takes the logical values (their `Vec` is moved in) and folds them into a tree. */
    constructor (a: seq<int>)
      requires |a| <= ISIZE_MAX
      ensures Valid() && fresh(tree)
      ensures len == |a| && vals == a
    {
      var t := new int[|a|](j requires 0 <= j < |a| => a[j]);
      assert t[..] == a;
      Build(t);
      tree, len, vals := t, |a|, a;
    }

    /** `edit(index, delta)` as written, including the step from index 0 to index 1; an index past the end does nothing. */
    method Edit(index0: Word, delta: int)
      requires Valid()
      modifies tree, this`vals
      ensures Valid()
      ensures tree[..] == ApplyEdit(old(tree[..]), index0, delta)
      ensures vals == EditEffect(old(vals), index0, delta)
    {
      ghost var t0 := tree[..];
      var index: Word := index0;
      while index < len
        invariant ApplyEdit(tree[..], index, delta) == ApplyEdit(t0, index0, delta)
        invariant vals == old(vals)
        decreases len - index
      {
        ghost var before, j := tree[..], index;
        ghost var next := if j == 0 then 1 else j + LowestSetBit(j);
        tree[index] := tree[index] + delta;
        ghost var after := tree[..];
        assert after == before[j := before[j] + delta];
        ApplyEditStep(before, j, next, delta);
        if index == 0 {
          index := index + 1;
        } else {
          index := index + Lowbit(index);
        }
        assert index == next;
        assert ApplyEdit(after, next, delta) == ApplyEdit(before, j, delta);
      }
      ApplyEditPastEnd(tree[..], index, delta);
      EditPreservesFenwick(t0, vals, index0, delta);
      vals := EditEffect(vals, index0, delta);
    }

    /** The evidently intended edit: position 0 is covered by slot 0 alone, so an edit there stops after slot 0. */
    method EditFixed(index0: Word, delta: int)
      requires Valid()
      modifies tree, this`vals
      ensures Valid()
      ensures tree[..] == if index0 == 0 && len > 0 then old(tree[..])[0 := old(tree[..])[0] + delta]
                          else ApplyEdit(old(tree[..]), index0, delta)
      ensures vals == if index0 < len then old(vals)[index0 := old(vals)[index0] + delta] else old(vals)
    {
      if index0 == 0 && len > 0 {
        SlotZeroUpdate(tree[..], vals, delta);
        tree[0] := tree[0] + delta;
        vals := vals[0 := vals[0] + delta];
      } else {
        Edit(index0, delta);
      }
    }

    /** `query_one(index)`: the downward walk accumulates the prefix sum up to index. */
    method QueryOne(index0: nat) returns (ans: int)
      requires Valid() && index0 < len
      ensures ans == WalkSum(tree[..], index0)
      ensures ans == Sum(vals, 0, index0 + 1)
    {
      ghost var t := tree[..];
      var index: Word := index0;
      ans := tree[index];
      ghost var read: seq<nat> := [];
      while index > 0
        invariant index <= index0
        invariant ans - t[index] + WalkSum(t, index) == WalkSum(t, index0)
        invariant read + QueryPath(index) == QueryPath(index0)
      {
        ghost var j := index;
        QueryTraceStep(read, j);
        read := read + [j];
        index := index - Lowbit(index);
        assert index == j - LowestSetBit(j);
        ans := ans + tree[index];
      }
      assert read + [0] == QueryPath(index0);
      WalkSumIsPrefixSum(t, vals, index0);
    }

    /** `query_range(left, right)`: the sum over the half-open range (left, right]. */
    method QueryRange(left: nat, right: nat) returns (ans: int)
      requires Valid() && left < len && right < len
      ensures left <= right ==> ans == Sum(vals, left + 1, right + 1)
      ensures right < left ==> ans == -Sum(vals, right + 1, left + 1)
    {
      ans := QueryOne(right);
      var l := QueryOne(left);
      ans := ans - l;
      PrefixDifferenceIsRangeSum(vals, left, right);
    }
  }
}
