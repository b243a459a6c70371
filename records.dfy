/**
 * What the minimising and fullscreen managers share: the stored record
 * (`MinimisedWindow` / `FullscreenWindow`), the filters they run over the
 * store, the `iter_mut` loops that rewrite flags and geometries, the
 * master/stack loop restricted to the records that take part in the tiling,
 * and the fullscreen lookup.
 */
module Records {
  import opened Basics
  import opened Sequences
  import opened Scans

  /**
   * A stored window: its geometry, the floating geometry saved for when it
   * floats again, its mode, and its fullscreen and minimised flags.
   */
  datatype Record = Record(window: Window, geometry: Geometry, savedGeometry: Geometry, mode: Mode,
                           fullscreen: bool, minimised: bool)

  /** How `add_window` stores a client record: both geometries the client's, not minimised. */
  function FromInfo(info: Info): (r: Record)
    ensures r.window == info.window && r.mode == info.mode && r.fullscreen == info.fullscreen
    ensures r.geometry == info.geometry && r.savedGeometry == info.geometry && !r.minimised
  {
    Record(info.window, info.geometry, info.geometry, info.mode, info.fullscreen, false)
  }

  /** The ids of the records, in store order. */
  function Ids(ws: seq<Record>): seq<Window>
  {
    seq(|ws|, i requires 0 <= i < |ws| => ws[i].window)
  }

  lemma IdsAppend(ws: seq<Record>, x: Record)
    ensures Ids(ws + [x]) == Ids(ws) + [x.window]
  {
  }

  lemma IdsRemoveAt(ws: seq<Record>, i: nat)
    requires i < |ws|
    ensures Ids(RemoveAt(ws, i)) == RemoveAt(Ids(ws), i)
  {
  }

  lemma IdsInsertAt(ws: seq<Record>, i: nat, x: Record)
    requires i <= |ws|
    ensures Ids(InsertAt(ws, i, x)) == InsertAt(Ids(ws), i, x.window)
  {
  }

  lemma IdsSwap(ws: seq<Record>, i: nat, j: nat)
    requires i < |ws| && j < |ws|
    ensures Ids(Swap(ws, i, j)) == Swap(Ids(ws), i, j)
  {
  }

  /** Rewriting a record in place without changing its id keeps the id list. */
  lemma IdsUpdate(ws: seq<Record>, i: nat, x: Record)
    requires i < |ws| && x.window == ws[i].window
    ensures Ids(ws[i := x]) == Ids(ws)
  {
  }

  lemma IdsOfTwo(a: Record, b: Record)
    ensures Ids([a, b]) == [a.window, b.window]
  {
  }

  lemma IdsOfThree(a: Record, b: Record, c: Record)
    ensures Ids([a, b, c]) == [a.window, b.window, c.window]
  {
  }

  /** The `get_windows` loop. */
  method CollectIds(ws: seq<Record>) returns (ids: seq<Window>)
    ensures ids == Ids(ws)
  {
    ids := [];
    var i := 0;
    while i < |ws|
      invariant i <= |ws|
      invariant ids == Ids(ws[..i])
    {
      ids := ids + [ws[i].window];
      i := i + 1;
    }
    assert ws[..|ws|] == ws;
  }

  predicate IsTile(r: Record) { r.mode == Tile }
  predicate IsFloat(r: Record) { r.mode == Float }
  predicate IsShown(r: Record) { !r.minimised }
  predicate IsFullscreen(r: Record) { r.fullscreen }
  /** A Tile record that is not minimised: the ones the tiling lays out. */
  predicate IsTiled(r: Record) { r.mode == Tile && !r.minimised }
  predicate IsShownFloat(r: Record) { r.mode == Float && !r.minimised }
  predicate IsMinimisedTile(r: Record) { r.mode == Tile && r.minimised }
  predicate IsMinimisedFloat(r: Record) { r.mode == Float && r.minimised }
  /** A tiled record that is not fullscreen either. */
  predicate IsStacked(r: Record) { r.mode == Tile && !r.minimised && !r.fullscreen }

  /** Which records satisfy `p`, position by position. */
  function Where(ws: seq<Record>, p: Record -> bool): (m: seq<bool>)
    ensures |m| == |ws| && forall k :: 0 <= k < |ws| ==> m[k] == p(ws[k])
  {
    seq(|ws|, k requires 0 <= k < |ws| => p(ws[k]))
  }

  lemma WherePrefix(ws: seq<Record>, p: Record -> bool, k: nat)
    requires k <= |ws|
    ensures Where(ws, p)[..k] == Where(ws[..k], p)
  {
  }

  /** `iter().position(p)`: the first record satisfying `p`, as the first marked position. */
  function FirstWhere(ws: seq<Record>, p: Record -> bool): (r: Option<nat>)
    ensures r.Some? ==> r.value < |ws| && Where(ws, p)[r.value] && forall k :: 0 <= k < r.value ==> !Where(ws, p)[k]
    ensures r.None? ==> forall k :: 0 <= k < |ws| ==> !Where(ws, p)[k]
  {
    var m := IndexOf(Where(ws, p), true);
    assert m.Some? ==> forall k :: 0 <= k < m.value ==> Where(ws, p)[..m.value][k] == Where(ws, p)[k];
    m
  }

  /** A position that satisfies `p` with none before it is the one `position` finds. */
  lemma FirstWhereIs(ws: seq<Record>, p: Record -> bool, m: nat)
    requires m < |ws| && p(ws[m]) && forall k :: 0 <= k < m ==> !p(ws[k])
    ensures FirstWhere(ws, p) == Some(m)
  {
  }

  /**
   * Swapping a record satisfying `p` with the first one that does leaves a
   * record satisfying `p` first; `r` is any store whose modes and flags
   * (whatever `p` reads) agree with the swapped one position by position.
   */
  lemma SwapKeepsFirst(ws: seq<Record>, p: Record -> bool, mi: nat, wi: nat, r: seq<Record>)
    requires FirstWhere(ws, p) == Some(mi) && wi < |ws| && p(ws[wi])
    requires |r| == |ws| && forall k :: 0 <= k < |ws| ==> p(r[k]) == p(Swap(ws, mi, wi)[k])
    ensures FirstWhere(r, p) == Some(mi)
  {
    assert mi <= wi;
    forall k | 0 <= k < mi
      ensures !p(r[k])
    {
      assert Where(ws, p)[k] == p(ws[k]);
    }
    FirstWhereIs(r, p, mi);
  }

  /** The ids of the records satisfying `p`, in store order (`iter().filter(p)` pushing ids). */
  function IdsWhere(ws: seq<Record>, p: Record -> bool): (r: seq<Window>)
    ensures |r| == Count(Where(ws, p))
  {
    if ws == [] then []
    else
      var init := ws[..|ws| - 1];
      WherePrefix(ws, p, |ws| - 1);
      IdsWhere(init, p) + (if p(ws[|ws| - 1]) then [ws[|ws| - 1].window] else [])
  }

  /** The filter loops that collect ids (`get_floating_windows`, `get_minimised_tiled_windows`, ...). */
  method CollectIdsWhere(ws: seq<Record>, p: Record -> bool) returns (ids: seq<Window>)
    ensures ids == IdsWhere(ws, p)
  {
    ids := [];
    var i := 0;
    while i < |ws|
      invariant i <= |ws|
      invariant ids == IdsWhere(ws[..i], p)
    {
      assert ws[..i + 1][..i] == ws[..i];
      if p(ws[i]) {
        ids := ids + [ws[i].window];
      }
      i := i + 1;
    }
    assert ws[..|ws|] == ws;
  }

  /** The (id, geometry) pairs of the records satisfying `p`, in store order. */
  function EntriesWhere(ws: seq<Record>, p: Record -> bool): (r: seq<(Window, Geometry)>)
    ensures forall k :: 0 <= k < |ws| && p(ws[k]) ==> (ws[k].window, ws[k].geometry) in r
    ensures forall e :: e in r ==> exists k :: 0 <= k < |ws| && p(ws[k]) && e == (ws[k].window, ws[k].geometry)
  {
    if ws == [] then []
    else
      var init := ws[..|ws| - 1];
      var last := ws[|ws| - 1];
      var r := EntriesWhere(init, p) + (if p(last) then [(last.window, last.geometry)] else []);
      assert forall k :: 0 <= k < |init| ==> init[k] == ws[k];
      r
  }

  /** The layout loops that push the visible records of one kind. */
  method CollectEntries(ws: seq<Record>, p: Record -> bool) returns (entries: seq<(Window, Geometry)>)
    ensures entries == EntriesWhere(ws, p)
  {
    entries := [];
    var i := 0;
    while i < |ws|
      invariant i <= |ws|
      invariant entries == EntriesWhere(ws[..i], p)
    {
      assert ws[..i + 1][..i] == ws[..i];
      if p(ws[i]) {
        entries := entries + [(ws[i].window, ws[i].geometry)];
      }
      i := i + 1;
    }
    assert ws[..|ws|] == ws;
  }

  /** `e` is the (id, geometry) pair of some record satisfying `p`. */
  ghost predicate EntryOf(ws: seq<Record>, e: (Window, Geometry), p: Record -> bool)
  {
    exists k :: 0 <= k < |ws| && p(ws[k]) && e == (ws[k].window, ws[k].geometry)
  }

  /** The id at an optional focus index, read with `get(index).unwrap()`. */
  function FocusedOf(ws: seq<Record>, focus: Option<nat>): (r: Option<Window>)
    requires focus.Some? ==> focus.value < |ws|
    ensures r.Some? <==> focus.Some?
    ensures r.Some? ==> r.value == Ids(ws)[focus.value] && r.value in Ids(ws)
  {
    match focus
    case None => None
    case Some(index) => Some(ws[index].window)
  }

  /**
   * The neighbour scans of `swap_windows` started at the focused position:
   * `get_next_tile_index(index, index)` or `get_prev_tile_index(index, index)`.
   */
  function Neighbour(mask: seq<bool>, index: nat, dir: Direction): (r: Option<nat>)
    requires index < |mask|
    ensures r.None? <==> forall j :: 0 <= j < |mask| && j != index ==> !mask[j]
    ensures r.Some? ==> r.value < |mask| && r.value != index && mask[r.value]
  {
    NeighbourIsNearest(mask, index, dir);
    if dir == Next then NextMarked(mask, index, index) else PrevMarked(mask, index, index)
  }

  /**
   * The in-place mode flip of the earlier designs' `toggle_floating`: a Tile
   * record floats again at its saved geometry; a Float record only changes
   * mode (its geometry is recomputed by the tiling or kept).
   */
  function Flipped(r: Record): (f: Record)
    ensures f.window == r.window && f.savedGeometry == r.savedGeometry
    ensures f.minimised == r.minimised && f.fullscreen == r.fullscreen
    ensures f.mode != r.mode
    ensures r.mode == Tile ==> f.geometry == r.savedGeometry
    ensures r.mode == Float ==> f.geometry == r.geometry
  {
    if r.mode == Tile then r.(geometry := r.savedGeometry, mode := Float)
    else r.(mode := Tile)
  }

  /** Flipping twice restores the mode, and from Float the whole record. */
  lemma FlippedTwice(r: Record)
    ensures Flipped(Flipped(r)).mode == r.mode
    ensures r.mode == Float ==> Flipped(Flipped(r)) == r.(geometry := r.savedGeometry)
    ensures r.mode == Tile ==> Flipped(Flipped(r)) == r.(geometry := r.savedGeometry)
  {
  }

  /** The ledger without `w` (`minimised_windows.remove(i)` at w's position); unchanged when absent. */
  function Unlisted(ledger: seq<Window>, w: Window): (r: seq<Window>)
    ensures w !in ledger ==> r == ledger
    ensures w in ledger ==> |r| == |ledger| - 1 && multiset(r) + multiset{w} == multiset(ledger)
  {
    match IndexOf(ledger, w)
    case None => ledger
    case Some(i) => RemoveAt(ledger, i)
  }

  /** Removing the entry of `w` from a distinct ledger removes `w` and keeps the others in order. */
  lemma UnlistedRemoves(ledger: seq<Window>, w: Window)
    requires Distinct(ledger)
    ensures Distinct(Unlisted(ledger, w)) && w !in Unlisted(ledger, w)
    ensures forall v :: v != w ==> (v in Unlisted(ledger, w) <==> v in ledger)
  {
    if w in ledger {
      var i := IndexOf(ledger, w).value;
      DistinctRemoveAt(ledger, i);
      forall v | v != w
        ensures v in Unlisted(ledger, w) <==> v in ledger
      {
        if v in ledger {
          var j :| 0 <= j < |ledger| && ledger[j] == v;
          assert j != i;
          if j < i {
            assert Unlisted(ledger, w)[j] == v;
          } else {
            assert Unlisted(ledger, w)[j - 1] == v;
          }
        }
      }
    }
  }

  /** Unlisting w keeps every other listed id, whether or not the ledger repeats ids. */
  lemma UnlistedKeepsOthers(ledger: seq<Window>, w: Window, v: Window)
    requires v != w && v in ledger
    ensures v in Unlisted(ledger, w)
  {
    if w in ledger {
      assert v in multiset(ledger);
    }
  }

  /** Appending a fresh id to the ledger and then unlisting it gives the ledger back. */
  lemma UnlistAppended(ledger: seq<Window>, w: Window)
    requires w !in ledger
    ensures Unlisted(ledger + [w], w) == ledger
  {
    var l := ledger + [w];
    assert l[..|ledger|] == ledger;
  }

  /** Every record either floats, or tiles minimised, or tiles shown. */
  lemma {:induction false} CountByKind(ws: seq<Record>, k: nat)
    requires k <= |ws|
    ensures Count(Where(ws, IsFloat)[..k]) + Count(Where(ws, IsMinimisedTile)[..k]) + Count(Where(ws, IsTiled)[..k]) == k
  {
    if k == 0 {
      assert Where(ws, IsFloat)[..0] == [] && Where(ws, IsMinimisedTile)[..0] == [] && Where(ws, IsTiled)[..0] == [];
    } else {
      CountByKind(ws, k - 1);
      CountPrefixStep(Where(ws, IsFloat), k - 1);
      CountPrefixStep(Where(ws, IsMinimisedTile), k - 1);
      CountPrefixStep(Where(ws, IsTiled), k - 1);
    }
  }

  /** Floating records are shown or minimised. */
  lemma {:induction false} CountFloats(ws: seq<Record>, k: nat)
    requires k <= |ws|
    ensures Count(Where(ws, IsShownFloat)[..k]) + Count(Where(ws, IsMinimisedFloat)[..k]) == Count(Where(ws, IsFloat)[..k])
  {
    if k == 0 {
      assert Where(ws, IsFloat)[..0] == [] && Where(ws, IsShownFloat)[..0] == [] && Where(ws, IsMinimisedFloat)[..0] == [];
    } else {
      CountFloats(ws, k - 1);
      CountPrefixStep(Where(ws, IsFloat), k - 1);
      CountPrefixStep(Where(ws, IsShownFloat), k - 1);
      CountPrefixStep(Where(ws, IsMinimisedFloat), k - 1);
    }
  }

  /** The records taking part in the stacking loop, other than the master id. */
  function StackMask(ws: seq<Record>, part: Record -> bool, master: Window): seq<bool>
  {
    seq(|ws|, k requires 0 <= k < |ws| => part(ws[k]) && ws[k].window != master)
  }

  /**
   * The master/stack loop over the records satisfying `part`: the one whose
   * id is `master` gets the left half, every other one the next right-half
   * slice of height `hh`, its top `hh` times the number of non-master
   * participants before it; the other records are left alone.
   */
  function Restacked(ws: seq<Record>, part: Record -> bool, master: Window, screen: Screen, hh: nat): (r: seq<Record>)
    ensures |r| == |ws| && Ids(r) == Ids(ws)
  {
    seq(|ws|, k requires 0 <= k < |ws| =>
      if !part(ws[k]) then ws[k]
      else if ws[k].window != master then
        ws[k].(geometry := Geometry(screen.width / 2, hh * Count(StackMask(ws, part, master)[..k]), screen.width / 2, hh))
      else ws[k].(geometry := Geometry(0, 0, screen.width / 2, screen.height)))
  }

  /** The `iter_mut().filter(part)` loop with its running `y_point`. */
  method RestackLoop(ws: seq<Record>, part: Record -> bool, master: Window, screen: Screen, hh: nat)
    returns (out: seq<Record>)
    ensures out == Restacked(ws, part, master, screen, hh)
  {
    out := ws;
    var y: int := 0;
    var i := 0;
    while i < |out|
      invariant |out| == |ws| && i <= |ws|
      invariant forall k :: 0 <= k < i ==> out[k] == Restacked(ws, part, master, screen, hh)[k]
      invariant forall k :: i <= k < |ws| ==> out[k] == ws[k]
      invariant y == hh * Count(StackMask(ws, part, master)[..i])
    {
      CountPrefixStep(StackMask(ws, part, master), i);
      MulSucc(hh, Count(StackMask(ws, part, master)[..i]));
      if part(out[i]) {
        if master != out[i].window {
          out := out[i := out[i].(geometry := Geometry(screen.width / 2, y, screen.width / 2, hh))];
          y := y + hh;
        } else {
          out := out[i := out[i].(geometry := Geometry(0, 0, screen.width / 2, screen.height))];
        }
      }
      i := i + 1;
    }
  }

  lemma {:induction false} CountNoneMarked(mask: seq<bool>, k: nat)
    requires k <= |mask| && forall j :: 0 <= j < k ==> !mask[j]
    ensures Count(mask[..k]) == 0
  {
    if k > 0 {
      CountPrefixStep(mask, k - 1);
      CountNoneMarked(mask, k - 1);
    } else {
      assert mask[..0] == [];
    }
  }

  /**
   * With distinct ids and the master the first participant (at `m`), the
   * non-master participants before k are all participants before k but the
   * master.
   */
  lemma {:induction false} StackCount(ws: seq<Record>, part: Record -> bool, m: nat, k: nat)
    requires Distinct(Ids(ws)) && m < |ws| && part(ws[m]) && k <= |ws|
    ensures var sm := Count(StackMask(ws, part, ws[m].window)[..k]);
      var pm := Count(Where(ws, part)[..k]);
      if k > m then sm + 1 == pm else sm == pm
  {
    if k > 0 {
      StackCount(ws, part, m, k - 1);
      CountPrefixStep(StackMask(ws, part, ws[m].window), k - 1);
      CountPrefixStep(Where(ws, part), k - 1);
      if k - 1 != m {
        assert Ids(ws)[k - 1] != Ids(ws)[m];
      }
    } else {
      assert StackMask(ws, part, ws[m].window)[..0] == [] && Where(ws, part)[..0] == [];
    }
  }

  lemma SlotArith(hh: nat, c: nat)
    ensures hh * c == c * hh
  {
  }

  /** One participant of the stacking loop gets the master/stack rectangle of its rank. */
  lemma RestackedAt(ws: seq<Record>, part: Record -> bool, screen: Screen, m: nat, k: nat)
    requires Distinct(Ids(ws)) && m < |ws| && part(ws[m]) && forall j :: 0 <= j < m ==> !part(ws[j])
    requires Count(Where(ws, part)) >= 2 && k < |ws| && part(ws[k])
    ensures var n := Count(Where(ws, part));
      Count(Where(ws, part)[..k]) < n &&
      Restacked(ws, part, ws[m].window, screen, SliceHeight(screen.height, n - 1))[k] ==
        ws[k].(geometry := MasterStack(screen, n, Count(Where(ws, part)[..k])))
  {
    var n := Count(Where(ws, part));
    var hh := SliceHeight(screen.height, n - 1);
    var mask := Where(ws, part);
    CountPrefixBound(mask, k);
    assert mask[..|mask|] == mask;
    StackCount(ws, part, m, k);
    if k < m {
      assert false;
    } else if k == m {
      CountNoneMarked(mask, m);
    } else {
      assert Ids(ws)[k] != Ids(ws)[m];
      SlotArith(hh, Count(mask[..k]) - 1);
    }
  }

  /**
   * With distinct ids, `N >= 2` participants and the first participant's id
   * as master, the loop gives the participant of rank r (the number of
   * participants before it) exactly the master/stack rectangle of r among N;
   * the other records are untouched.
   */
  lemma RestackedIsMasterStack(ws: seq<Record>, part: Record -> bool, screen: Screen, m: nat)
    requires Distinct(Ids(ws)) && m < |ws| && part(ws[m]) && forall k :: 0 <= k < m ==> !part(ws[k])
    requires Count(Where(ws, part)) >= 2
    ensures var n := Count(Where(ws, part));
      var r := Restacked(ws, part, ws[m].window, screen, SliceHeight(screen.height, n - 1));
      forall k :: 0 <= k < |ws| ==>
        (part(ws[k]) ==> Count(Where(ws, part)[..k]) < n &&
                         r[k] == ws[k].(geometry := MasterStack(screen, n, Count(Where(ws, part)[..k])))) &&
        (!part(ws[k]) ==> r[k] == ws[k])
  {
    forall k | 0 <= k < |ws| && part(ws[k])
      ensures var n := Count(Where(ws, part));
        Count(Where(ws, part)[..k]) < n &&
        Restacked(ws, part, ws[m].window, screen, SliceHeight(screen.height, n - 1))[k] ==
          ws[k].(geometry := MasterStack(screen, n, Count(Where(ws, part)[..k])))
    {
      RestackedAt(ws, part, screen, m, k);
    }
  }

  /**
   * When no participant has the master's id, no record gets the left half:
   * every participant takes a right-half slice, the first one at the top.
   */
  lemma RestackedWithoutMaster(ws: seq<Record>, part: Record -> bool, master: Window, screen: Screen, hh: nat)
    requires forall k :: 0 <= k < |ws| && part(ws[k]) ==> ws[k].window != master
    ensures var r := Restacked(ws, part, master, screen, hh);
      forall k :: 0 <= k < |ws| && part(ws[k]) ==>
        r[k] == ws[k].(geometry := Geometry(screen.width / 2, hh * Count(Where(ws, part)[..k]), screen.width / 2, hh))
  {
    assert StackMask(ws, part, master) == Where(ws, part);
  }

  /** Two participation tests that agree on every record give the same geometry update. */
  lemma RetileSamePart(ws: seq<Record>, p: Record -> bool, q: Record -> bool, masterAt: Option<nat>, divisor: nat, screen: Screen)
    requires masterAt.Some? ==> masterAt.value < |ws|
    requires forall k :: 0 <= k < |ws| ==> p(ws[k]) == q(ws[k])
    ensures Retile(ws, p, masterAt, divisor, screen) == Retile(ws, q, masterAt, divisor, screen)
  {
    if masterAt.Some? && divisor > 0 {
      var master := ws[masterAt.value].window;
      assert StackMask(ws, p, master) == StackMask(ws, q, master);
    }
  }

  /**
   * The geometry update shared by the later managers, once it has counted
   * and found its master: with a positive `divisor`, the stacking loop over
   * the `part` records with the id at `masterAt` as master and slices of
   * h / divisor; otherwise the record at `masterAt` gets the screen; with no
   * master, nothing.
   */
  function Retile(ws: seq<Record>, part: Record -> bool, masterAt: Option<nat>, divisor: nat, screen: Screen)
    : (r: seq<Record>)
    requires masterAt.Some? ==> masterAt.value < |ws|
    ensures |r| == |ws| && Ids(r) == Ids(ws)
    ensures forall k :: 0 <= k < |ws| ==> r[k] == ws[k].(geometry := r[k].geometry)
  {
    match masterAt
    case None => ws
    case Some(i) =>
      if divisor > 0 then Restacked(ws, part, ws[i].window, screen, SliceHeight(screen.height, divisor))
      else
        IdsUpdate(ws, i, ws[i].(geometry := ScreenGeometry(screen)));
        ws[i := ws[i].(geometry := ScreenGeometry(screen))]
  }

  /** A record outside the tiling that is not the master is left as it was. */
  lemma RetileKeepsOthers(ws: seq<Record>, part: Record -> bool, masterAt: Option<nat>, divisor: nat, screen: Screen, k: nat)
    requires masterAt.Some? ==> masterAt.value < |ws|
    requires k < |ws| && !part(ws[k]) && masterAt != Some(k)
    ensures Retile(ws, part, masterAt, divisor, screen)[k] == ws[k]
  {
  }

  /**
   * With distinct ids, the master the first `part` record, N >= 2 of them
   * and N - 1 slices, the `part` record of rank r gets the master/stack
   * rectangle of r among N.
   */
  lemma RetileIsMasterStack(ws: seq<Record>, part: Record -> bool, m: nat, screen: Screen)
    requires Distinct(Ids(ws)) && m < |ws| && part(ws[m]) && forall k :: 0 <= k < m ==> !part(ws[k])
    requires Count(Where(ws, part)) >= 2
    ensures var n := Count(Where(ws, part));
      forall k :: 0 <= k < |ws| && part(ws[k]) ==>
        Count(Where(ws, part)[..k]) < n &&
        Retile(ws, part, Some(m), n - 1, screen)[k].geometry == MasterStack(screen, n, Count(Where(ws, part)[..k]))
  {
    RestackedIsMasterStack(ws, part, screen, m);
  }

  /**
   * When the master does not take part, no record gets the left half: every
   * `part` record takes a right-half slice at its rank.
   */
  lemma RetileWithoutMaster(ws: seq<Record>, part: Record -> bool, m: nat, divisor: nat, screen: Screen)
    requires Distinct(Ids(ws)) && m < |ws| && !part(ws[m]) && divisor > 0
    ensures var hh := SliceHeight(screen.height, divisor);
      forall k :: 0 <= k < |ws| && part(ws[k]) ==>
        Retile(ws, part, Some(m), divisor, screen)[k].geometry ==
        Geometry(screen.width / 2, hh * Count(Where(ws, part)[..k]), screen.width / 2, hh)
  {
    forall k | 0 <= k < |ws| && part(ws[k])
      ensures ws[k].window != ws[m].window
    {
      assert Ids(ws)[k] != Ids(ws)[m];
    }
    RestackedWithoutMaster(ws, part, ws[m].window, screen, SliceHeight(screen.height, divisor));
  }

  /** Without slices, the master gets the screen and no other record changes. */
  lemma RetileSingle(ws: seq<Record>, part: Record -> bool, m: nat, screen: Screen)
    requires m < |ws|
    ensures var r := Retile(ws, part, Some(m), 0, screen);
      r[m] == ws[m].(geometry := ScreenGeometry(screen)) && forall k :: 0 <= k < |ws| && k != m ==> r[k] == ws[k]
  {
  }

  /** Every fullscreen flag cleared (the `iter_mut().filter(fullscreen)` loops). */
  function NoFullscreen(ws: seq<Record>): (r: seq<Record>)
    ensures |r| == |ws| && forall k :: 0 <= k < |ws| ==> r[k] == ws[k].(fullscreen := false)
    ensures Ids(r) == Ids(ws)
  {
    seq(|ws|, k requires 0 <= k < |ws| => ws[k].(fullscreen := false))
  }

  /** The clearing loop; `any` says whether it met a fullscreen record. */
  method ClearFullscreen(ws: seq<Record>) returns (out: seq<Record>, any: bool)
    ensures out == NoFullscreen(ws) && any == HasFullscreen(ws)
  {
    out := ws;
    any := false;
    var i := 0;
    while i < |out|
      invariant |out| == |ws| && i <= |ws|
      invariant forall k :: 0 <= k < i ==> out[k] == ws[k].(fullscreen := false)
      invariant forall k :: i <= k < |ws| ==> out[k] == ws[k]
      invariant any <==> exists k :: 0 <= k < i && ws[k].fullscreen
    {
      if out[i].fullscreen {
        out := out[i := out[i].(fullscreen := false)];
        any := true;
      }
      i := i + 1;
    }
  }

  /** After clearing, no record is fullscreen, and clearing twice changes nothing more. */
  lemma NoFullscreenClears(ws: seq<Record>)
    ensures !HasFullscreen(NoFullscreen(ws)) && AtMostOneFullscreen(NoFullscreen(ws))
    ensures Ids(NoFullscreen(ws)) == Ids(ws) && NoFullscreen(NoFullscreen(ws)) == NoFullscreen(ws)
    ensures !HasFullscreen(ws) ==> NoFullscreen(ws) == ws
  {
  }

  /** The fullscreen flag of the records with id `w` set to `on` (`set_/remove_fullscreen_window(w)`). */
  function WithFullscreen(ws: seq<Record>, w: Window, on: bool): (r: seq<Record>)
    ensures |r| == |ws|
    ensures forall k :: 0 <= k < |ws| ==> r[k] == if ws[k].window == w then ws[k].(fullscreen := on) else ws[k]
  {
    seq(|ws|, k requires 0 <= k < |ws| => if ws[k].window == w then ws[k].(fullscreen := on) else ws[k])
  }

  method MarkFullscreen(ws: seq<Record>, w: Window, on: bool) returns (out: seq<Record>)
    ensures out == WithFullscreen(ws, w, on)
  {
    out := ws;
    var i := 0;
    while i < |out|
      invariant |out| == |ws| && i <= |ws|
      invariant forall k :: 0 <= k < i ==> out[k] == WithFullscreen(ws, w, on)[k]
      invariant forall k :: i <= k < |ws| ==> out[k] == ws[k]
    {
      if out[i].window == w {
        out := out[i := out[i].(fullscreen := on)];
      }
      i := i + 1;
    }
  }

  predicate HasFullscreen(ws: seq<Record>)
  {
    exists k :: 0 <= k < |ws| && ws[k].fullscreen
  }

  /** The fullscreen records given the screen's geometry. */
  function ScreenFullscreen(ws: seq<Record>, screen: Screen): (r: seq<Record>)
    ensures |r| == |ws|
    ensures forall k :: 0 <= k < |ws| ==>
              r[k] == if ws[k].fullscreen then ws[k].(geometry := ScreenGeometry(screen)) else ws[k]
  {
    seq(|ws|, k requires 0 <= k < |ws| => if ws[k].fullscreen then ws[k].(geometry := ScreenGeometry(screen)) else ws[k])
  }

  /** The first loop of the geometry updates: fullscreen records get the screen; `any` says whether there was one. */
  method ScreenFullscreenLoop(ws: seq<Record>, screen: Screen) returns (out: seq<Record>, any: bool)
    ensures out == ScreenFullscreen(ws, screen) && any == HasFullscreen(ws)
  {
    out := ws;
    any := false;
    var i := 0;
    while i < |out|
      invariant |out| == |ws| && i <= |ws|
      invariant forall k :: 0 <= k < i ==> out[k] == ScreenFullscreen(ws, screen)[k]
      invariant forall k :: i <= k < |ws| ==> out[k] == ws[k]
      invariant any <==> exists k :: 0 <= k < i && ws[k].fullscreen
    {
      if out[i].fullscreen {
        out := out[i := out[i].(geometry := ScreenGeometry(screen))];
        any := true;
      }
      i := i + 1;
    }
  }

  /** Without a fullscreen record the screen loop changes nothing. */
  lemma ScreenFullscreenNone(ws: seq<Record>, screen: Screen)
    requires !HasFullscreen(ws)
    ensures ScreenFullscreen(ws, screen) == ws
  {
  }

  /**
   * Setting the flag of `w` in a store without a fullscreen record makes
   * exactly w's record fullscreen, so at most one is.
   */
  lemma WithFullscreenOnly(ws: seq<Record>, w: Window)
    requires Distinct(Ids(ws)) && !HasFullscreen(ws)
    ensures var r := WithFullscreen(ws, w, true);
      AtMostOneFullscreen(r) && Ids(r) == Ids(ws) &&
      forall k :: 0 <= k < |ws| ==> (r[k].fullscreen <==> ws[k].window == w)
  {
    var r := WithFullscreen(ws, w, true);
    forall i, j | 0 <= i < |r| && 0 <= j < |r| && r[i].fullscreen && r[j].fullscreen
      ensures i == j
    {
      assert Ids(ws)[i] == Ids(ws)[j];
    }
  }

  /** The last fullscreen record, which the overwriting loops of `get_fullscreen_window` and the layout keep. */
  function LastFullscreen(ws: seq<Record>): (r: Option<Record>)
    ensures r.Some? <==> HasFullscreen(ws)
    ensures r.Some? ==> r.value in ws && r.value.fullscreen
  {
    if ws == [] then None
    else if ws[|ws| - 1].fullscreen then Some(ws[|ws| - 1])
    else
      var r := LastFullscreen(ws[..|ws| - 1]);
      assert forall k :: 0 <= k < |ws| - 1 ==> ws[..|ws| - 1][k] == ws[k];
      r
  }

  method FindFullscreen(ws: seq<Record>) returns (r: Option<Record>)
    ensures r == LastFullscreen(ws)
  {
    r := None;
    var i := 0;
    while i < |ws|
      invariant i <= |ws|
      invariant r == LastFullscreen(ws[..i])
    {
      assert ws[..i + 1][..i] == ws[..i];
      if ws[i].fullscreen {
        r := Some(ws[i]);
      }
      i := i + 1;
    }
    assert ws[..|ws|] == ws;
  }

  /** At most one record is fullscreen. */
  predicate AtMostOneFullscreen(ws: seq<Record>)
  {
    forall i, j :: 0 <= i < |ws| && 0 <= j < |ws| && ws[i].fullscreen && ws[j].fullscreen ==> i == j
  }

  /** Dropping a record keeps "at most one fullscreen record". */
  lemma AtMostOneRemoveAt(ws: seq<Record>, i: nat)
    requires AtMostOneFullscreen(ws) && i < |ws|
    ensures AtMostOneFullscreen(RemoveAt(ws, i))
  {
    var r := RemoveAt(ws, i);
    forall a, b | 0 <= a < |r| && 0 <= b < |r| && r[a].fullscreen && r[b].fullscreen
      ensures a == b
    {
      var a' := if a < i then a else a + 1;
      var b' := if b < i then b else b + 1;
      assert r[a] == ws[a'] && r[b] == ws[b'];
    }
  }

  /** Swapping two records keeps "at most one fullscreen record". */
  lemma AtMostOneSwap(ws: seq<Record>, i: nat, j: nat)
    requires AtMostOneFullscreen(ws) && i < |ws| && j < |ws|
    ensures AtMostOneFullscreen(Swap(ws, i, j))
  {
    var r := Swap(ws, i, j);
    forall a, b | 0 <= a < |r| && 0 <= b < |r| && r[a].fullscreen && r[b].fullscreen
      ensures a == b
    {
      var a' := if a == i then j else if a == j then i else a;
      var b' := if b == i then j else if b == j then i else b;
      assert r[a] == ws[a'] && r[b] == ws[b'];
    }
  }

  /** With at most one fullscreen record, the lookup returns that record. */
  lemma LastFullscreenUnique(ws: seq<Record>, k: nat)
    requires AtMostOneFullscreen(ws) && k < |ws| && ws[k].fullscreen
    ensures LastFullscreen(ws) == Some(ws[k])
  {
    var j :| 0 <= j < |ws| && ws[j] == LastFullscreen(ws).value;
  }

  /** The record of `w`, if stored. */
  function Lookup(ws: seq<Record>, w: Window): (r: Option<Record>)
    ensures r.Some? <==> w in Ids(ws)
    ensures r.Some? ==> r.value in ws && r.value.window == w
  {
    match IndexOf(Ids(ws), w)
    case None => None
    case Some(i) => Some(ws[i])
  }

  /**
   * A rewrite that changes geometries only keeps the ids, the fullscreen
   * facts and the ledger's agreement with the flags.
   */
  lemma GeometryOnly(ws: seq<Record>, r: seq<Record>, ledger: seq<Window>)
    requires |r| == |ws| && forall k :: 0 <= k < |ws| ==> r[k] == ws[k].(geometry := r[k].geometry)
    ensures Ids(r) == Ids(ws)
    ensures (AtMostOneFullscreen(r) <==> AtMostOneFullscreen(ws)) && (HasFullscreen(r) <==> HasFullscreen(ws))
    ensures LedgerAgrees(r, ledger) <==> LedgerAgrees(ws, ledger)
  {
    assert forall k :: 0 <= k < |ws| ==> r[k].fullscreen == ws[k].fullscreen && r[k].minimised == ws[k].minimised;
    assert Ids(r) == Ids(ws);
  }

  /** Clearing the fullscreen flags keeps the ledger's agreement with the flags. */
  lemma NoFullscreenKeepsLedger(ws: seq<Record>, ledger: seq<Window>)
    ensures LedgerAgrees(NoFullscreen(ws), ledger) <==> LedgerAgrees(ws, ledger)
  {
    var c := NoFullscreen(ws);
    assert Ids(c) == Ids(ws);
    assert forall k :: 0 <= k < |ws| ==> c[k].minimised == ws[k].minimised;
  }

  /** Swapping two records keeps the ledger's agreement with the flags. */
  lemma SwapAgrees(ws: seq<Record>, i: nat, j: nat, ledger: seq<Window>)
    requires i < |ws| && j < |ws|
    ensures LedgerAgrees(Swap(ws, i, j), ledger) <==> LedgerAgrees(ws, ledger)
  {
    var r := Swap(ws, i, j);
    IdsSwap(ws, i, j);
    SwapPermutes(Ids(ws), i, j);
    forall v
      ensures v in Ids(r) <==> v in Ids(ws)
    {
      assert v in Ids(r) <==> v in multiset(Ids(r));
      assert v in Ids(ws) <==> v in multiset(Ids(ws));
    }
    assert forall k :: 0 <= k < |ws| ==> ws[k] == r[if k == i then j else if k == j then i else k];
  }

  /** The ledger agrees with the flags: exactly the minimised records' ids, each once, all managed. */
  predicate LedgerAgrees(ws: seq<Record>, ledger: seq<Window>)
  {
    Distinct(ledger) &&
    (forall w :: w in ledger ==> w in Ids(ws)) &&
    (forall k :: 0 <= k < |ws| ==> (ws[k].minimised <==> ws[k].window in ledger))
  }
}
