/**
 * The order model of the content (h5p-sort-paragraphs-content.js): the
 * current order is the sequence of paragraph ids, one per list position,
 * where a paragraph's id is its index in the solution.  Every change of the
 * order is a swap of two list entries.
 */
module Order {
  import opened Wrappers
  import opened Js
  import opened Util

  /** `s` is an order of the paragraphs 0 .. n-1: each id exactly once. */
  predicate IsPermutation(s: seq<nat>, n: nat) {
    && |s| == n
    && Distinct(s)
    && forall p :: 0 <= p < |s| ==> s[p] < n
  }

  /** The solution order [0, 1, ..., n-1]. */
  function Identity(n: nat): (r: seq<nat>)
    ensures |r| == n && forall p :: 0 <= p < n ==> r[p] == p
  {
    seq(n, p requires 0 <= p < n => p)
  }

  lemma IdentityIsPermutation(n: nat)
    ensures IsPermutation(Identity(n), n)
  {
  }

  /** An order of the n paragraphs contains every id below n. */
  lemma {:induction false} PermutationContainsAll(s: seq<nat>, n: nat, x: nat)
    requires IsPermutation(s, n) && x < n
    ensures x in s
  {
    // The map p -> s[p] sends the n positions injectively into [0, n); were x
    // missing, those n ids and x would be n + 1 ids below n.
    var ids := set p | 0 <= p < n :: s[p];
    var below := set p | 0 <= p < n :: Identity(n)[p];
    PositionsImageSize(s, n);
    PositionsImageSize(Identity(n), n);
    if x !in s {
      assert Identity(n)[x] == x;
      assert x in below;
      assert x !in ids;
      forall y | y in ids
        ensures y in below
      {
        var p :| 0 <= p < n && s[p] == y;
        assert Identity(n)[y] == y;
      }
      assert ids + {x} <= below;
      SubsetSize(ids + {x}, below);
    }
  }

  /** The ids found at the first n positions of a repetition-free order are n ids. */
  lemma {:induction false} PositionsImageSize(s: seq<nat>, n: nat)
    requires Distinct(s) && n <= |s|
    ensures |set p | 0 <= p < n :: s[p]| == n
  {
    if n > 0 {
      PositionsImageSize(s, n - 1);
      var smaller := set p | 0 <= p < n - 1 :: s[p];
      assert (set p | 0 <= p < n :: s[p]) == smaller + {s[n - 1]};
      assert s[n - 1] !in smaller;
    }
  }

  lemma SubsetSize<T>(a: set<T>, b: set<T>)
    requires a <= b
    ensures |a| <= |b|
  {
    assert b == a + (b - a);
  }

  /** Swapping two entries of an order of the paragraphs keeps it one. */
  lemma SwapAtPermutation(s: seq<nat>, n: nat, i: nat, j: nat)
    requires IsPermutation(s, n) && i < n && j < n
    ensures IsPermutation(SwapAt(s, i, j), n)
  {
    var r := SwapAt(s, i, j);
    forall a, b | 0 <= a < b < |r|
      ensures r[a] != r[b]
    {
      var a0 := if a == i then j else if a == j then i else a;
      var b0 := if b == i then j else if b == j then i else b;
      assert r[a] == s[a0] && r[b] == s[b0];
      if a0 < b0 { assert s[a0] != s[b0]; } else { assert s[b0] != s[a0]; }
    }
  }

  /** swapDOMElements of two paragraphs keeps the order an order of the paragraphs. */
  lemma SwapElementsPermutation(s: seq<nat>, n: nat, e1: nat, e2: nat)
    requires IsPermutation(s, n) && e1 != e2
    ensures IsPermutation(SwapElements(s, e1, e2), n)
  {
    var r := SwapElements(s, e1, e2);
    forall p | 0 <= p < |r|
      ensures r[p] < n
    {
      assert r[p] in multiset(s);
    }
  }

  /** A repetition-free rearrangement of an order of the paragraphs is one too. */
  lemma SameIdsPermutation(s: seq<nat>, r: seq<nat>, n: nat)
    requires IsPermutation(s, n) && Distinct(r) && multiset(r) == multiset(s)
    ensures IsPermutation(r, n)
  {
    assert |r| == |multiset(r)| == |multiset(s)| == |s|;
    forall p | 0 <= p < |r|
      ensures r[p] < n
    {
      assert r[p] in multiset(r);
      assert r[p] in multiset(s);
    }
  }

  /** The run of a loop that may throw: the order reached, and the error if it threw. */
  datatype Run = Run(order: seq<nat>, thrown: Option<Error>)

  /**
   * One iteration of reorderDraggables, for index i: nothing when the entry
   * at i is already the wanted one; otherwise the entry at i is swapped with
   * the position holding the wanted id.  The swap throws a TypeError when
   * there is no entry at i or the wanted id is not in the list (None).
   */
  function ReorderStep(cur: seq<nat>, target: seq<int>, i: nat): (r: Option<seq<nat>>)
    requires Distinct(cur) && i < |target|
    ensures r.Some? ==> |r.value| == |cur| && multiset(r.value) == multiset(cur) && Distinct(r.value)
  {
    if i < |cur| && cur[i] as int == target[i] then Some(cur)
    else if i >= |cur| || target[i] < 0 || target[i] as nat !in cur then None
    else
      var k := IndexOf(cur, target[i] as nat);
      SwapAtMultiset(cur, i, k);
      SwapElementsAt(cur, i, k);
      Some(SwapAt(cur, i, k))
  }

  /** reorderDraggables(target), from iteration i on. */
  function ReorderFrom(cur: seq<nat>, target: seq<int>, i: nat): (r: Run)
    requires Distinct(cur) && i <= |target|
    ensures |r.order| == |cur| && Distinct(r.order)
    decreases |target| - i
  {
    if i == |target| then Run(cur, None)
    else
      match ReorderStep(cur, target, i)
      case None => Run(cur, Some(TypeError))
      case Some(next) => ReorderFrom(next, target, i + 1)
  }

  function Reorder(cur: seq<nat>, target: seq<int>): (r: Run)
    requires Distinct(cur)
    ensures |r.order| == |cur| && Distinct(r.order)
    ensures multiset(r.order) == multiset(cur)
  {
    ReorderFromPermutes(cur, target, 0);
    ReorderFrom(cur, target, 0)
  }

  /** Whatever the target, reordering only rearranges the list. */
  lemma {:induction false} ReorderFromPermutes(cur: seq<nat>, target: seq<int>, i: nat)
    requires Distinct(cur) && i <= |target|
    ensures multiset(ReorderFrom(cur, target, i).order) == multiset(cur)
    decreases |target| - i
  {
    if i < |target| {
      var step := ReorderStep(cur, target, i);
      if step.Some? {
        ReorderFromPermutes(step.value, target, i + 1);
      }
    }
  }

  /** The target's ids, when it is an order of the n paragraphs. */
  predicate IsTargetPermutation(target: seq<int>, n: nat) {
    && |target| == n
    && (forall p :: 0 <= p < n ==> 0 <= target[p] < n)
    && forall p, q :: 0 <= p < q < n ==> target[p] != target[q]
  }

  function TargetIds(target: seq<int>): (r: seq<nat>)
    requires forall p :: 0 <= p < |target| ==> 0 <= target[p]
    ensures |r| == |target| && forall p :: 0 <= p < |r| ==> r[p] as int == target[p]
  {
    seq(|target|, p requires 0 <= p < |target| => target[p] as nat)
  }

  /**
   * With the list an order of the paragraphs whose first i entries already
   * match, iteration i puts the target's entry at position i and leaves the
   * first i entries alone.
   */
  lemma ReorderStepProgress(cur: seq<nat>, target: seq<int>, n: nat, i: nat)
    requires IsPermutation(cur, n) && IsTargetPermutation(target, n) && i < n
    requires forall p :: 0 <= p < i ==> cur[p] as int == target[p]
    ensures ReorderStep(cur, target, i).Some?
    ensures var next := ReorderStep(cur, target, i).value;
      && IsPermutation(next, n)
      && forall p :: 0 <= p <= i ==> next[p] as int == target[p]
  {
    PermutationContainsAll(cur, n, target[i] as nat);
    if cur[i] as int != target[i] {
      assert forall p :: 0 <= p < i ==> cur[p] as int == target[p] != target[i];
      var k := IndexOf(cur, target[i] as nat);
      SwapAtPermutation(cur, n, i, k);
    }
  }

  /** A target that is an order of the paragraphs is reached without an error. */
  lemma {:induction false} ReorderFromReaches(cur: seq<nat>, target: seq<int>, n: nat, i: nat)
    requires IsPermutation(cur, n) && IsTargetPermutation(target, n) && i <= n
    requires forall p :: 0 <= p < i ==> cur[p] as int == target[p]
    ensures ReorderFrom(cur, target, i) == Run(TargetIds(target), None)
    decreases n - i
  {
    if i == n {
      assert cur == TargetIds(target);
    } else {
      ReorderStepProgress(cur, target, n, i);
      ReorderFromReaches(ReorderStep(cur, target, i).value, target, n, i + 1);
    }
  }

  /** The ids of an order, as the numbers a persisted order holds. */
  function AsNumbers(s: seq<nat>): (r: seq<int>)
    ensures |r| == |s| && forall p :: 0 <= p < |s| ==> r[p] == s[p] as int
  {
    seq(|s|, p requires 0 <= p < |s| => s[p] as int)
  }

  /** reorderDraggables(target) to an order of the paragraphs ends exactly there. */
  lemma ReorderToPermutation(cur: seq<nat>, target: seq<nat>, n: nat)
    requires IsPermutation(cur, n) && IsPermutation(target, n)
    ensures Reorder(cur, AsNumbers(target)) == Run(target, None)
  {
    var t := AsNumbers(target);
    ReorderFromReaches(cur, t, n, 0);
    assert TargetIds(t) == target;
  }

  /**
   * A persisted order that names an id outside the list, or is longer than
   * the list, makes reorderDraggables throw.
   */
  lemma ReorderRejectsForeignId(cur: seq<nat>, target: seq<int>, n: nat, i: nat)
    requires IsPermutation(cur, n) && i <= n && i < |target|
    requires forall p :: 0 <= p < i ==> cur[p] as int == target[p]
    requires i == n || target[i] < 0 || target[i] >= n
    ensures Reorder(cur, target).thrown == Some(TypeError)
  {
    ReorderPrefixKept(cur, target, 0, i);
  }

  /** While the list already matches the target, the iterations change nothing. */
  lemma {:induction false} ReorderPrefixKept(cur: seq<nat>, target: seq<int>, j: nat, i: nat)
    requires Distinct(cur) && j <= i < |target| && i <= |cur|
    requires forall p :: 0 <= p < i ==> cur[p] as int == target[p]
    ensures ReorderFrom(cur, target, j) == ReorderFrom(cur, target, i)
    decreases i - j
  {
    if j < i {
      ReorderPrefixKept(cur, target, j + 1, i);
    }
  }
}
