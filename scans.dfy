/**
 * The circular neighbour scans behind `swap_windows` (`get_next_tile_index`
 * and `get_prev_tile_index`), over a mask that says which positions the scan
 * may stop at, and the counting of marked positions used by the tiling code.
 */
module Scans {
  import opened Basics

  /** Number of marked positions. */
  function Count(mask: seq<bool>): (r: nat)
    ensures r <= |mask|
  {
    if mask == [] then 0 else Count(mask[..|mask| - 1]) + (if mask[|mask| - 1] then 1 else 0)
  }

  lemma CountPrefixStep(mask: seq<bool>, k: nat)
    requires k < |mask|
    ensures Count(mask[..k + 1]) == Count(mask[..k]) + (if mask[k] then 1 else 0)
  {
    assert mask[..k + 1][..k] == mask[..k];
  }

  /** Marked positions before `k` count fewer than all marked positions when `k` is marked. */
  lemma {:induction false} CountPrefixBound(mask: seq<bool>, k: nat)
    requires k < |mask| && mask[k]
    ensures Count(mask[..k]) < Count(mask)
  {
    CountPrefixStep(mask, k);
    CountMonotone(mask, k + 1, |mask|);
    assert mask[..|mask|] == mask;
  }

  lemma {:induction false} CountMonotone(mask: seq<bool>, i: nat, j: nat)
    requires i <= j <= |mask|
    ensures Count(mask[..i]) <= Count(mask[..j])
    decreases j - i
  {
    if i < j {
      CountPrefixStep(mask, j - 1);
      CountMonotone(mask, i, j - 1);
    }
  }

  /** When every position is marked, the first k positions count k. */
  lemma {:induction false} CountAllMarked(mask: seq<bool>, k: nat)
    requires k <= |mask| && forall i :: 0 <= i < |mask| ==> mask[i]
    ensures Count(mask[..k]) == k
  {
    if k > 0 {
      CountPrefixStep(mask, k - 1);
      CountAllMarked(mask, k - 1);
    } else {
      assert mask[..0] == [];
    }
  }

  /** A positive count has a marked position behind it. */
  lemma {:induction false} CountPositive(mask: seq<bool>)
    requires Count(mask) > 0
    ensures exists k :: 0 <= k < |mask| && mask[k]
  {
    var init := mask[..|mask| - 1];
    if !mask[|mask| - 1] {
      CountPositive(init);
      var k :| 0 <= k < |init| && init[k];
      assert mask[k];
    }
  }

  /** The position `d` steps forward from `from` on a ring of `len` positions. */
  function Fwd(from: nat, d: nat, len: nat): (r: nat)
    requires from < len && d <= len
    ensures r < len && r == (from + d) % len
  {
    if from + d < len then
      ModBelow(from + d, len);
      from + d
    else
      ModWrap(from + d, len);
      from + d - len
  }

  /** The position `d` steps backward from `from` on a ring of `len` positions. */
  function Bwd(from: nat, d: nat, len: nat): (r: nat)
    requires from < len && d <= len
    ensures r < len && r == (from + len - d) % len
  {
    if d <= from then
      ModWrap(from + len - d, len);
      from - d
    else
      ModBelow(from + len - d, len);
      from + len - d
  }

  /** Steps still to take forward from `index` before the scan is back at `saved`, minus one. */
  function NextGap(index: nat, saved: nat, len: nat): nat
    requires index < len && saved < len
  {
    if index < saved then saved - index - 1 else saved + len - index - 1
  }

  function PrevGap(index: nat, saved: nat, len: nat): nat
    requires index < len && saved < len
  {
    if saved < index then index - saved - 1 else index + len - saved - 1
  }

  /**
   * `get_next_tile_index(index, saved)`: step forward circularly from `index`
   * and return the first marked position, or None once the step would land
   * on `saved`.
   */
  function NextMarked(mask: seq<bool>, index: nat, saved: nat): Option<nat>
    requires index < |mask| && saved < |mask|
    decreases NextGap(index, saved, |mask|)
  {
    var next := if |mask| - 1 > index then index + 1 else 0;
    if next == saved then None
    else if mask[next] then Some(next)
    else NextMarked(mask, next, saved)
  }

  /** `get_prev_tile_index(index, saved)`: the same walk, backward. */
  function PrevMarked(mask: seq<bool>, index: nat, saved: nat): Option<nat>
    requires index < |mask| && saved < |mask|
    decreases PrevGap(index, saved, |mask|)
  {
    var prev := if index != 0 then index - 1 else |mask| - 1;
    if prev == saved then None
    else if mask[prev] then Some(prev)
    else PrevMarked(mask, prev, saved)
  }

  /** No position at distance `lo < d < hi` forward of `saved` is marked. */
  predicate NoneMarkedFwd(mask: seq<bool>, saved: nat, lo: nat, hi: nat)
    requires saved < |mask| && hi <= |mask|
  {
    forall d :: lo < d < hi ==> !mask[Fwd(saved, d, |mask|)]
  }

  predicate NoneMarkedBwd(mask: seq<bool>, saved: nat, lo: nat, hi: nat)
    requires saved < |mask| && hi <= |mask|
  {
    forall d :: lo < d < hi ==> !mask[Bwd(saved, d, |mask|)]
  }

  lemma {:induction false} NextMarkedFrom(mask: seq<bool>, saved: nat, m: nat)
    requires saved < |mask| && m < |mask|
    requires NoneMarkedFwd(mask, saved, 0, m + 1)
    ensures var r := NextMarked(mask, Fwd(saved, m, |mask|), saved);
      (r.None? <==> NoneMarkedFwd(mask, saved, m, |mask|)) &&
      (r.Some? ==> exists d :: m < d < |mask| && r.value == Fwd(saved, d, |mask|)
                               && mask[r.value] && NoneMarkedFwd(mask, saved, 0, d))
    decreases |mask| - m
  {
    var len := |mask|;
    var c := Fwd(saved, m, len);
    var next := if len - 1 > c then c + 1 else 0;
    assert next == Fwd(saved, m + 1, len);
    if next == saved {
      assert m + 1 == len;
    } else if mask[next] {
      assert m + 1 < len;
      assert NoneMarkedFwd(mask, saved, 0, m + 1);
    } else {
      assert m + 1 < len;
      NextMarkedFrom(mask, saved, m + 1);
    }
  }

  lemma {:induction false} PrevMarkedFrom(mask: seq<bool>, saved: nat, m: nat)
    requires saved < |mask| && m < |mask|
    requires NoneMarkedBwd(mask, saved, 0, m + 1)
    ensures var r := PrevMarked(mask, Bwd(saved, m, |mask|), saved);
      (r.None? <==> NoneMarkedBwd(mask, saved, m, |mask|)) &&
      (r.Some? ==> exists d :: m < d < |mask| && r.value == Bwd(saved, d, |mask|)
                               && mask[r.value] && NoneMarkedBwd(mask, saved, 0, d))
    decreases |mask| - m
  {
    var len := |mask|;
    var c := Bwd(saved, m, len);
    var prev := if c != 0 then c - 1 else len - 1;
    assert prev == Bwd(saved, m + 1, len);
    if prev == saved {
      assert m + 1 == len;
    } else if mask[prev] {
      assert m + 1 < len;
      assert NoneMarkedBwd(mask, saved, 0, m + 1);
    } else {
      assert m + 1 < len;
      PrevMarkedFrom(mask, saved, m + 1);
    }
  }

  /**
   * A scan started at `saved` finds the marked position nearest to `saved`
   * in its direction, other than `saved` itself, and finds nothing exactly
   * when no other position is marked.
   */
  lemma NeighbourIsNearest(mask: seq<bool>, saved: nat, dir: Direction)
    requires saved < |mask|
    ensures var r := if dir == Next then NextMarked(mask, saved, saved) else PrevMarked(mask, saved, saved);
      (r.None? <==> forall j :: 0 <= j < |mask| && j != saved ==> !mask[j]) &&
      (r.Some? ==> r.value < |mask| && r.value != saved && mask[r.value])
    ensures dir == Next && NextMarked(mask, saved, saved).Some? ==>
      exists d :: 0 < d < |mask| && NextMarked(mask, saved, saved).value == Fwd(saved, d, |mask|)
                  && NoneMarkedFwd(mask, saved, 0, d)
    ensures dir == Prev && PrevMarked(mask, saved, saved).Some? ==>
      exists d :: 0 < d < |mask| && PrevMarked(mask, saved, saved).value == Bwd(saved, d, |mask|)
                  && NoneMarkedBwd(mask, saved, 0, d)
  {
    var len := |mask|;
    assert Fwd(saved, 0, len) == saved && Bwd(saved, 0, len) == saved;
    if dir == Next {
      NextMarkedFrom(mask, saved, 0);
      var r := NextMarked(mask, saved, saved);
      if r.None? {
        forall j | 0 <= j < len && j != saved ensures !mask[j] {
          var d := if j > saved then j - saved else j + len - saved;
          assert Fwd(saved, d, len) == j;
        }
      } else {
        var d :| 0 < d < len && r.value == Fwd(saved, d, len) && mask[r.value] && NoneMarkedFwd(mask, saved, 0, d);
        assert r.value != saved;
      }
    } else {
      PrevMarkedFrom(mask, saved, 0);
      var r := PrevMarked(mask, saved, saved);
      if r.None? {
        forall j | 0 <= j < len && j != saved ensures !mask[j] {
          var d := if j < saved then saved - j else saved + len - j;
          assert Bwd(saved, d, len) == j;
        }
      } else {
        var d :| 0 < d < len && r.value == Bwd(saved, d, len) && mask[r.value] && NoneMarkedBwd(mask, saved, 0, d);
        assert r.value != saved;
      }
    }
  }
}
