/**
 * The slot-overlap check of check_index_tuple: slot i's byte range against
 * the ranges of the earlier slots whose line pointer is LP_NORMAL.
 */
module Overlap {
  import opened Layout

  function Max(x: int, y: int): int
  {
    if x < y then y else x
  }

  function Min(x: int, y: int): int
  {
    if x < y then x else y
  }

  /**
   * The four-way test on [a, b] = slot x and [c, d] = slot y: c or d lies
   * strictly inside (a, b), or a or b lies strictly inside (c, d).
   * It holds exactly when the two closed ranges meet, are not the very same
   * range, and neither ends where the other begins: identical and merely
   * adjacent ranges pass, while an empty range strictly inside another fails.
   */
  function Intersects(x: ItemId, y: ItemId): (r: bool)
    ensures r <==>
      && Max(x.off, y.off) <= Min(End(x), End(y))
      && !(x.off == y.off && End(x) == End(y))
      && End(x) != y.off && End(y) != x.off
  {
    var a, b := x.off, End(x);
    var c, d := y.off, End(y);
    (a < c && c < b) || (a < d && d < b) || (c < a && a < d) || (c < b && b < d)
  }

  /** Slot j is reported against slot i: j is LP_NORMAL and the ranges intersect. */
  predicate Conflicts(linp: seq<ItemId>, i: nat, j: nat)
    requires i < |linp| && j < |linp|
  {
    linp[j].flags == LpNormal && Intersects(linp[i], linp[j])
  }

  /** The errors the overlap loop has counted for slot i after its first k rounds. */
  function CountConflicts(linp: seq<ItemId>, i: nat, k: nat): (n: nat)
    requires i < |linp| && k <= |linp|
    ensures n <= k
  {
    if k == 0 then 0
    else CountConflicts(linp, i, k - 1) + (if Conflicts(linp, i, k - 1) then 1 else 0)
  }

  /**
   * The overlap errors of slot i: the loop runs over every j < i, and slot i
   * gets exactly one error per earlier LP_NORMAL slot whose range intersects
   * its own.
   */
  function OverlapErrors(linp: seq<ItemId>, i: nat): (n: nat)
    requires i < |linp|
    ensures n == |set j: nat | j < i && linp[j].flags == LpNormal && Intersects(linp[i], linp[j])|
  {
    CountConflictsIsCardinality(linp, i, i);
    assert ConflictSet(linp, i, i) == set j: nat | j < i && linp[j].flags == LpNormal && Intersects(linp[i], linp[j]);
    CountConflicts(linp, i, i)
  }

  /** The earlier slots (below k) that slot i is reported against. */
  function ConflictSet(linp: seq<ItemId>, i: nat, k: nat): set<nat>
    requires i < |linp| && k <= |linp|
  {
    set j: nat | j < k && Conflicts(linp, i, j)
  }

  lemma {:induction false} CountConflictsIsCardinality(linp: seq<ItemId>, i: nat, k: nat)
    requires i < |linp| && k <= |linp|
    ensures CountConflicts(linp, i, k) == |ConflictSet(linp, i, k)|
  {
    if k > 0 {
      CountConflictsIsCardinality(linp, i, k - 1);
      var before, now := ConflictSet(linp, i, k - 1), ConflictSet(linp, i, k);
      if Conflicts(linp, i, k - 1) {
        assert now == before + {k - 1};
      } else {
        assert now == before;
      }
    }
  }

  lemma {:induction false} CountConflictsIgnoresOwnFlag(linp: seq<ItemId>, i: nat, k: nat, f: LpFlag)
    requires k <= i < |linp|
    ensures CountConflicts(linp[i := linp[i].(flags := f)], i, k) == CountConflicts(linp, i, k)
  {
    if k > 0 {
      CountConflictsIgnoresOwnFlag(linp, i, k - 1, f);
    }
  }

  /**
   * Slot i's own flag plays no part in its overlap errors: an unused,
   * redirected or dead slot is still compared with the earlier LP_NORMAL slots.
   */
  lemma OverlapIgnoresOwnFlag(linp: seq<ItemId>, i: nat, f: LpFlag)
    requires i < |linp|
    ensures OverlapErrors(linp[i := linp[i].(flags := f)], i) == OverlapErrors(linp, i)
  {
    CountConflictsIgnoresOwnFlag(linp, i, i, f);
  }

  lemma {:induction false} CountConflictsOnPrefix(linp: seq<ItemId>, i: nat, k: nat, n: nat)
    requires k <= i < n <= |linp|
    ensures CountConflicts(linp[..n], i, k) == CountConflicts(linp, i, k)
  {
    if k > 0 {
      CountConflictsOnPrefix(linp, i, k - 1, n);
    }
  }

  /** Slots at or after i never contribute to slot i's overlap errors. */
  lemma OverlapIgnoresLaterSlots(linp: seq<ItemId>, i: nat)
    requires i < |linp|
    ensures OverlapErrors(linp[..i + 1], i) == OverlapErrors(linp, i)
  {
    CountConflictsOnPrefix(linp, i, i, i + 1);
  }

  /** The overlap errors of slots 0 .. n-1 together. */
  function OverlapTotal(linp: seq<ItemId>, n: nat): nat
    requires n <= |linp|
  {
    if n == 0 then 0 else OverlapTotal(linp, n - 1) + OverlapErrors(linp, n - 1)
  }

  /** The reported pairs among slots 0 .. n-1, as (lower index, higher index). */
  function ReportedPairs(linp: seq<ItemId>, n: nat): set<(nat, nat)>
    requires n <= |linp|
  {
    set j: nat, i: nat | j < i < n && Conflicts(linp, i, j) :: (j, i)
  }

  /** The reported pairs with higher index i and lower index below k. */
  function PairsOf(linp: seq<ItemId>, i: nat, k: nat): set<(nat, nat)>
    requires i < |linp| && k <= |linp|
  {
    set j: nat | j < k && Conflicts(linp, i, j) :: (j, i)
  }

  lemma {:induction false} PairsOfCardinality(linp: seq<ItemId>, i: nat, k: nat)
    requires i < |linp| && k <= |linp|
    ensures |PairsOf(linp, i, k)| == CountConflicts(linp, i, k)
  {
    if k > 0 {
      PairsOfCardinality(linp, i, k - 1);
      var before, now := PairsOf(linp, i, k - 1), PairsOf(linp, i, k);
      if Conflicts(linp, i, k - 1) {
        assert now == before + {(k - 1, i)};
        assert (k - 1, i) !in before;
      } else {
        assert now == before;
      }
    }
  }

  /**
   * Over a whole page every intersecting pair with an LP_NORMAL lower slot
   * is counted exactly once, at its higher index.
   */
  lemma {:induction false} OverlapTotalCountsPairsOnce(linp: seq<ItemId>, n: nat)
    requires n <= |linp|
    ensures OverlapTotal(linp, n) == |ReportedPairs(linp, n)|
  {
    if n > 0 {
      OverlapTotalCountsPairsOnce(linp, n - 1);
      var before, row := ReportedPairs(linp, n - 1), PairsOf(linp, n - 1, n - 1);
      assert ReportedPairs(linp, n) == before + row;
      assert before !! row;
      PairsOfCardinality(linp, n - 1, n - 1);
    }
  }

  /**
   * A page whose LP_NORMAL slots do not intersect any later slot gets no
   * overlap error at all.
   */
  lemma NoIntersectionNoOverlapErrors(linp: seq<ItemId>, n: nat)
    requires n <= |linp|
    requires forall j: nat, i: nat :: j < i < n && linp[j].flags == LpNormal ==> !Intersects(linp[i], linp[j])
    ensures OverlapTotal(linp, n) == 0
  {
    OverlapTotalCountsPairsOnce(linp, n);
    assert ReportedPairs(linp, n) == {};
  }
}
