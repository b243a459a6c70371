/**
 * What the managers that store the client's `WindowWithInfo` records share:
 * the id list of `get_windows`, and the master/stack loop of the tiling
 * layouts, which walks the records in store order, gives the record whose id
 * is the master's the left half, and gives every other record the next slice
 * of the right half, moving a running `y_point` down by one slice height.
 */
module InfoTiling {
  import opened Basics
  import opened Sequences
  import opened Scans

  /** The ids of the records, in store order. */
  function Ids(ws: seq<Info>): seq<Window>
  {
    seq(|ws|, i requires 0 <= i < |ws| => ws[i].window)
  }

  lemma IdsAppend(ws: seq<Info>, x: Info)
    ensures Ids(ws + [x]) == Ids(ws) + [x.window]
  {
  }

  lemma IdsOfInfos(a: Info, b: Info, c: Info)
    ensures Ids([a, b]) == [a.window, b.window]
    ensures Ids([a, b, c]) == [a.window, b.window, c.window]
  {
  }

  lemma IdsRemoveAt(ws: seq<Info>, i: nat)
    requires i < |ws|
    ensures Ids(RemoveAt(ws, i)) == RemoveAt(Ids(ws), i)
  {
  }

  lemma IdsSwap(ws: seq<Info>, i: nat, j: nat)
    requires i < |ws| && j < |ws|
    ensures Ids(Swap(ws, i, j)) == Swap(Ids(ws), i, j)
  {
  }

  /** The `get_windows` loop: push the id of every record, in order. */
  method CollectIds(ws: seq<Info>) returns (ids: seq<Window>)
    ensures ids == Ids(ws)
  {
    ids := [];
    var i := 0;
    while i < |ws|
      invariant i <= |ws|
      invariant ids == Ids(ws[..i])
    {
      ids := ids + [ws[i].window];
      i := i + 1;
    }
    assert ws[..|ws|] == ws;
  }

  /** Which records the stacking loop treats as not the master: those whose id differs. */
  function NotMasterMask(ws: seq<Info>, master: Window): seq<bool>
  {
    seq(|ws|, k requires 0 <= k < |ws| => ws[k].window != master)
  }

  /**
   * The rectangle the stacking loop gives the record at `k`: the left half
   * when its id is the master's, otherwise a right-half slice of height `hh`
   * whose top is `hh` times the number of non-master records before it.
   */
  function StackedGeometry(ws: seq<Info>, master: Window, screen: Screen, hh: nat, k: nat): Geometry
    requires k < |ws|
  {
    if ws[k].window != master then
      Geometry(screen.width / 2, hh * Count(NotMasterMask(ws, master)[..k]), screen.width / 2, hh)
    else
      Geometry(0, 0, screen.width / 2, screen.height)
  }

  /** The entries the stacking loop pushes, one per record, in store order. */
  function StackedEntries(ws: seq<Info>, master: Window, screen: Screen, hh: nat): seq<(Window, Geometry)>
  {
    seq(|ws|, k requires 0 <= k < |ws| => (ws[k].window, StackedGeometry(ws, master, screen, hh, k)))
  }

  /** The stacking loop of the read-only layouts, with its running `y_point`. */
  method StackLayoutLoop(ws: seq<Info>, master: Window, screen: Screen, hh: nat)
    returns (entries: seq<(Window, Geometry)>)
    ensures entries == StackedEntries(ws, master, screen, hh)
  {
    entries := [];
    var y: int := 0;
    var i := 0;
    while i < |ws|
      invariant i <= |ws| && |entries| == i
      invariant forall k :: 0 <= k < i ==> entries[k] == (ws[k].window, StackedGeometry(ws, master, screen, hh, k))
      invariant y == hh * Count(NotMasterMask(ws, master)[..i])
    {
      CountPrefixStep(NotMasterMask(ws, master), i);
      MulSucc(hh, Count(NotMasterMask(ws, master)[..i]));
      if master != ws[i].window {
        entries := entries + [(ws[i].window, Geometry(screen.width / 2, y, screen.width / 2, hh))];
        y := y + hh;
      } else {
        entries := entries + [(ws[i].window, Geometry(0, 0, screen.width / 2, screen.height))];
      }
      i := i + 1;
    }
  }

  /** Every record carrying the rectangle the stacking loop gives it; ids and modes untouched. */
  function Restacked(ws: seq<Info>, master: Window, screen: Screen, hh: nat): (r: seq<Info>)
    ensures |r| == |ws| && Ids(r) == Ids(ws)
  {
    seq(|ws|, k requires 0 <= k < |ws| => ws[k].(geometry := StackedGeometry(ws, master, screen, hh, k)))
  }

  /** The stacking loop of `calculate_tiled_geometries`, writing into the records (`iter_mut`). */
  method RestackLoop(ws: seq<Info>, master: Window, screen: Screen, hh: nat) returns (out: seq<Info>)
    ensures out == Restacked(ws, master, screen, hh)
  {
    out := ws;
    var y: int := 0;
    var i := 0;
    while i < |out|
      invariant |out| == |ws| && i <= |ws|
      invariant forall k :: 0 <= k < i ==> out[k] == ws[k].(geometry := StackedGeometry(ws, master, screen, hh, k))
      invariant forall k :: i <= k < |ws| ==> out[k] == ws[k]
      invariant y == hh * Count(NotMasterMask(ws, master)[..i])
    {
      CountPrefixStep(NotMasterMask(ws, master), i);
      MulSucc(hh, Count(NotMasterMask(ws, master)[..i]));
      if master != out[i].window {
        out := out[i := out[i].(geometry := Geometry(screen.width / 2, y, screen.width / 2, hh))];
        y := y + hh;
      } else {
        out := out[i := out[i].(geometry := Geometry(0, 0, screen.width / 2, screen.height))];
      }
      i := i + 1;
    }
  }

  lemma {:induction false} NotMasterCount(ws: seq<Info>, k: nat)
    requires Distinct(Ids(ws)) && 1 <= k <= |ws|
    ensures Count(NotMasterMask(ws, ws[0].window)[..k]) == k - 1
  {
    var mask := NotMasterMask(ws, ws[0].window);
    CountPrefixStep(mask, k - 1);
    if k == 1 {
      assert mask[..0] == [];
    } else {
      assert Ids(ws)[0] != Ids(ws)[k - 1];
      NotMasterCount(ws, k - 1);
    }
  }

  lemma StackedSlice(ws: seq<Info>, master: Window, screen: Screen, hh: nat, k: nat, c: nat)
    requires k < |ws| && ws[k].window != master && Count(NotMasterMask(ws, master)[..k]) == c
    ensures StackedGeometry(ws, master, screen, hh, k) == Geometry(screen.width / 2, c * hh, screen.width / 2, hh)
  {
  }

  /**
   * With distinct ids and the first record as master, the stacking loop
   * gives the record at position k exactly the master/stack rectangle of k
   * among all the records.
   */
  lemma StackedIsMasterStack(ws: seq<Info>, screen: Screen, k: nat)
    requires Distinct(Ids(ws)) && 2 <= |ws| && k < |ws|
    ensures StackedGeometry(ws, ws[0].window, screen, SliceHeight(screen.height, |ws| - 1), k) == MasterStack(screen, |ws|, k)
  {
    if k > 0 {
      assert Ids(ws)[0] != Ids(ws)[k];
      NotMasterCount(ws, k);
      StackedSlice(ws, ws[0].window, screen, SliceHeight(screen.height, |ws| - 1), k, k - 1);
    }
  }

  /** The records whose mode is `m`, in store order (`iter().filter(..)`). */
  function WithMode(ws: seq<Info>, m: Mode): (r: seq<Info>)
    ensures |r| <= |ws|
    ensures forall x :: x in r <==> x in ws && x.mode == m
  {
    if ws == [] then []
    else WithMode(ws[..|ws| - 1], m) + (if ws[|ws| - 1].mode == m then [ws[|ws| - 1]] else [])
  }

  lemma WithModeStep(ws: seq<Info>, m: Mode, i: nat)
    requires i < |ws|
    ensures WithMode(ws[..i + 1], m) == WithMode(ws[..i], m) + (if ws[i].mode == m then [ws[i]] else [])
  {
    assert ws[..i + 1][..i] == ws[..i];
  }

  /** Filtering keeps ids distinct. */
  lemma {:induction false} DistinctWithMode(ws: seq<Info>, m: Mode)
    requires Distinct(Ids(ws))
    ensures Distinct(Ids(WithMode(ws, m)))
  {
    if ws != [] {
      var init := ws[..|ws| - 1];
      var last := ws[|ws| - 1];
      assert Ids(init) == Ids(ws)[..|ws| - 1];
      DistinctWithMode(init, m);
      if last.mode == m {
        var f := WithMode(init, m);
        forall t | 0 <= t < |f|
          ensures Ids(f)[t] != last.window
        {
          assert f[t] in init;
          var j :| 0 <= j < |init| && init[j] == f[t];
          assert Ids(ws)[j] == f[t].window && Ids(ws)[|ws| - 1] == last.window;
        }
        assert last.window !in Ids(f);
        IdsAppend(f, last);
        DistinctAppend(Ids(f), last.window);
        assert WithMode(ws, m) == f + [last];
      } else {
        assert WithMode(ws, m) == WithMode(init, m) + [] == WithMode(init, m);
      }
    }
  }

  /** The first record survives a filter on its own mode as the filter's first record. */
  lemma {:induction false} WithModeHead(ws: seq<Info>, m: Mode)
    requires ws != [] && ws[0].mode == m
    ensures WithMode(ws, m) != [] && WithMode(ws, m)[0] == ws[0]
  {
    if |ws| > 1 {
      WithModeHead(ws[..|ws| - 1], m);
    }
  }

  /** The Tile and the Float filters split the records between them: every id lands in exactly one. */
  lemma {:induction false} WithModePartition(ws: seq<Info>)
    ensures multiset(Ids(WithMode(ws, Float))) + multiset(Ids(WithMode(ws, Tile))) == multiset(Ids(ws))
  {
    if ws != [] {
      var init := ws[..|ws| - 1];
      var last := ws[|ws| - 1];
      WithModePartition(init);
      assert ws == init + [last];
      IdsAppend(init, last);
      var fl, tl := WithMode(init, Float), WithMode(init, Tile);
      if last.mode == Float {
        assert WithMode(ws, Float) == fl + [last] && WithMode(ws, Tile) == tl;
        IdsAppend(fl, last);
      } else {
        assert WithMode(ws, Tile) == tl + [last] && WithMode(ws, Float) == fl;
        IdsAppend(tl, last);
      }
    }
  }

  /** Each record paired with its own stored geometry. */
  function OwnEntries(xs: seq<Info>): seq<(Window, Geometry)>
  {
    seq(|xs|, k requires 0 <= k < |xs| => (xs[k].window, xs[k].geometry))
  }

  /** The first loop of the floating layout: push every Float record with its own geometry. */
  method CollectFloating(ws: seq<Info>) returns (entries: seq<(Window, Geometry)>)
    ensures entries == OwnEntries(WithMode(ws, Float))
  {
    entries := [];
    var i := 0;
    while i < |ws|
      invariant i <= |ws|
      invariant entries == OwnEntries(WithMode(ws[..i], Float))
    {
      WithModeStep(ws, Float, i);
      if ws[i].mode == Float {
        entries := entries + [(ws[i].window, ws[i].geometry)];
      }
      i := i + 1;
    }
    assert ws[..|ws|] == ws;
  }

  /** The id at an optional focus index (`index_foused_window`), read with `get(index).unwrap()`. */
  function FocusedOf(ws: seq<Info>, focus: Option<nat>): (r: Option<Window>)
    requires focus.Some? ==> focus.value < |ws|
    ensures r.Some? <==> focus.Some?
    ensures r.Some? ==> r.value == Ids(ws)[focus.value] && r.value in Ids(ws)
  {
    match focus
    case None => None
    case Some(index) => Some(ws[index].window)
  }

  /** The record of `w`, if it is stored. */
  function Lookup(ws: seq<Info>, w: Window): (r: Option<Info>)
    ensures r.Some? <==> w in Ids(ws)
    ensures r.Some? ==> r.value in ws && r.value.window == w
  {
    match IndexOf(Ids(ws), w)
    case None => None
    case Some(i) => Some(ws[i])
  }
}
