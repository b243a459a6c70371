/**
 * The minimising manager (`d_minimising_windows.rs`): every window is
 * appended to one store of records carrying a `minimised` flag, a ledger
 * keeps the minimised ids in the order they were minimised, the layout shows
 * the shown Tile records and then the shown Float records, and the master is
 * the first Tile record, minimised or not.
 */
module MinimisingManager {
  import opened Basics
  import opened Sequences
  import opened Scans
  import opened Records

  /**
   * The slice count of `calculate_tiled_geometries`: the records beyond
   * `get_floating_windows`, the minimised Tile records and one more, or 0
   * when there are none beyond them (each list's length is the number of
   * records its filter matches, see `IdsWhere`).
   */
  function Divisor(ws: seq<Record>): (d: nat)
  {
    var nonTiled := Count(Where(ws, IsFloat)) + Count(Where(ws, IsMinimisedTile)) + 1;
    if |ws| > nonTiled then |ws| - nonTiled else 0
  }

  /** The slice count is one less than the number of shown Tile records, or 0 with at most one. */
  lemma DivisorCountsTiled(ws: seq<Record>)
    ensures var n := Count(Where(ws, IsTiled));
      Divisor(ws) == if n >= 2 then n - 1 else 0
  {
    CountByKind(ws, |ws|);
    assert Where(ws, IsFloat)[..|ws|] == Where(ws, IsFloat);
    assert Where(ws, IsMinimisedTile)[..|ws|] == Where(ws, IsMinimisedTile);
    assert Where(ws, IsTiled)[..|ws|] == Where(ws, IsTiled);
  }

  /**
   * What `calculate_tiled_geometries` leaves in the store: `Retile` over
   * the shown Tile records, with the first Tile record (minimised or not) as
   * master and `Divisor` slices.
   */
  function Retiled(ws: seq<Record>, screen: Screen): (r: seq<Record>)
    ensures |r| == |ws| && Ids(r) == Ids(ws)
    ensures forall k :: 0 <= k < |ws| ==> r[k] == ws[k].(geometry := r[k].geometry)
  {
    if ws == [] then ws
    else Retile(ws, IsTiled, FirstWhere(ws, IsTile), Divisor(ws), screen)
  }

  /** Float records keep their geometry whatever the tiling does. */
  lemma RetiledKeepsFloats(ws: seq<Record>, screen: Screen)
    ensures forall k :: 0 <= k < |ws| && ws[k].mode == Float ==> Retiled(ws, screen)[k] == ws[k]
  {
    forall k | 0 <= k < |ws| && ws[k].mode == Float
      ensures Retiled(ws, screen)[k] == ws[k]
    {
      RetileKeepsOthers(ws, IsTiled, FirstWhere(ws, IsTile), Divisor(ws), screen, k);
    }
  }

  /**
   * With distinct ids, N >= 2 shown Tile records and the first Tile record
   * shown, the shown Tile record of rank r (shown Tile records before it)
   * gets the master/stack rectangle of r among N.
   */
  lemma RetiledIsMasterStack(ws: seq<Record>, screen: Screen)
    requires Distinct(Ids(ws)) && Count(Where(ws, IsTiled)) >= 2
    requires FirstWhere(ws, IsTile).Some? && !ws[FirstWhere(ws, IsTile).value].minimised
    ensures var n := Count(Where(ws, IsTiled));
      forall k :: 0 <= k < |ws| && IsTiled(ws[k]) ==>
        Count(Where(ws, IsTiled)[..k]) < n &&
        Retiled(ws, screen)[k].geometry == MasterStack(screen, n, Count(Where(ws, IsTiled)[..k]))
  {
    DivisorCountsTiled(ws);
    RetileIsMasterStack(ws, IsTiled, FirstWhere(ws, IsTile).value, screen);
  }

  /**
   * When the first Tile record is minimised, no record gets the left half:
   * with N >= 2 shown Tile records, each takes a right-half slice of
   * h / (N - 1) at its rank, so the left half of the screen stays empty.
   */
  lemma RetiledMinimisedMaster(ws: seq<Record>, screen: Screen)
    requires Distinct(Ids(ws)) && Count(Where(ws, IsTiled)) >= 2
    requires FirstWhere(ws, IsTile).Some? && ws[FirstWhere(ws, IsTile).value].minimised
    ensures var hh := SliceHeight(screen.height, Count(Where(ws, IsTiled)) - 1);
      forall k :: 0 <= k < |ws| && IsTiled(ws[k]) ==>
        Retiled(ws, screen)[k].geometry ==
        Geometry(screen.width / 2, hh * Count(Where(ws, IsTiled)[..k]), screen.width / 2, hh)
  {
    var m := FirstWhere(ws, IsTile).value;
    DivisorCountsTiled(ws);
    assert Divisor(ws) == Count(Where(ws, IsTiled)) - 1;
    RetileWithoutMaster(ws, IsTiled, m, Divisor(ws), screen);
  }

  /** With at most one shown Tile record, the first Tile record gets the screen and nothing else moves. */
  lemma RetiledSingle(ws: seq<Record>, screen: Screen)
    requires Count(Where(ws, IsTiled)) <= 1
    ensures forall k :: 0 <= k < |ws| && FirstWhere(ws, IsTile) != Some(k) ==> Retiled(ws, screen)[k] == ws[k]
    ensures FirstWhere(ws, IsTile).Some? ==>
      Retiled(ws, screen)[FirstWhere(ws, IsTile).value] ==
      ws[FirstWhere(ws, IsTile).value].(geometry := ScreenGeometry(screen))
  {
    DivisorCountsTiled(ws);
    assert Divisor(ws) == 0;
    match FirstWhere(ws, IsTile) {
      case None =>
      case Some(m) =>
        RetileSingle(ws, IsTiled, m, screen);
    }
  }

  /** Retiling changes no flag, so the ledger still agrees with the store. */
  lemma RetiledKeepsLedger(ws: seq<Record>, ledger: seq<Window>, screen: Screen)
    requires LedgerAgrees(ws, ledger)
    ensures LedgerAgrees(Retiled(ws, screen), ledger)
  {
    var r := Retiled(ws, screen);
    forall k | 0 <= k < |ws|
      ensures r[k].minimised == ws[k].minimised && r[k].window == ws[k].window
    {
    }
  }

  /**
   * `get_window_layout`: nothing for an empty store; otherwise the shown
   * Tile records then the shown Float records, each with its stored
   * geometry, and the focus read from the index.
   */
  function MinimisingLayout(ws: seq<Record>, focus: Option<nat>): Layout
    requires focus.Some? ==> focus.value < |ws|
  {
    if ws == [] then EmptyLayout
    else Layout(FocusedOf(ws, focus), EntriesWhere(ws, IsTiled) + EntriesWhere(ws, IsShownFloat))
  }

  /** With distinct ids, no entry is both a shown Tile record's and a shown Float record's. */
  lemma EntryKindsExclusive(ws: seq<Record>, e: (Window, Geometry))
    requires Distinct(Ids(ws))
    ensures !(EntryOf(ws, e, IsTiled) && EntryOf(ws, e, IsShownFloat))
  {
    if EntryOf(ws, e, IsTiled) {
      var a :| 0 <= a < |ws| && IsTiled(ws[a]) && e == (ws[a].window, ws[a].geometry);
      forall b | 0 <= b < |ws| && IsShownFloat(ws[b])
        ensures e != (ws[b].window, ws[b].geometry)
      {
        if b != a {
          assert Ids(ws)[a] != Ids(ws)[b];
        }
      }
    }
  }

  /**
   * With distinct ids, a record's entry is in the layout exactly when the
   * record is not minimised, every entry is some shown record's, and no
   * shown Float entry comes before a shown Tile entry.
   */
  lemma LayoutShowsUnminimised(ws: seq<Record>, focus: Option<nat>)
    requires Distinct(Ids(ws)) && (focus.Some? ==> focus.value < |ws|)
    ensures var l := MinimisingLayout(ws, focus);
      l.focusedWindow == FocusedOf(ws, focus) &&
      (forall k :: 0 <= k < |ws| ==> ((ws[k].window, ws[k].geometry) in l.windows <==> !ws[k].minimised)) &&
      (forall i :: 0 <= i < |l.windows| ==> EntryOf(ws, l.windows[i], IsTiled) || EntryOf(ws, l.windows[i], IsShownFloat)) &&
      (forall i, j :: 0 <= i < j < |l.windows| && EntryOf(ws, l.windows[i], IsShownFloat) ==>
        EntryOf(ws, l.windows[j], IsShownFloat))
  {
    if ws != [] {
      var tl, fl := EntriesWhere(ws, IsTiled), EntriesWhere(ws, IsShownFloat);
      var l := MinimisingLayout(ws, focus);
      assert l.windows == tl + fl;
      forall k | 0 <= k < |ws| && (ws[k].window, ws[k].geometry) in l.windows
        ensures !ws[k].minimised
      {
        var e := (ws[k].window, ws[k].geometry);
        var j :| 0 <= j < |ws| && (IsTiled(ws[j]) || IsShownFloat(ws[j])) && e == (ws[j].window, ws[j].geometry);
        assert Ids(ws)[j] == Ids(ws)[k];
      }
      forall i | 0 <= i < |tl|
        ensures EntryOf(ws, l.windows[i], IsTiled)
      {
        assert l.windows[i] == tl[i] && tl[i] in tl;
      }
      forall i | |tl| <= i < |l.windows|
        ensures EntryOf(ws, l.windows[i], IsShownFloat)
      {
        assert l.windows[i] == fl[i - |tl|] && fl[i - |tl|] in fl;
      }
      forall i, j | 0 <= i < j < |l.windows| && EntryOf(ws, l.windows[i], IsShownFloat)
        ensures EntryOf(ws, l.windows[j], IsShownFloat)
      {
        EntryKindsExclusive(ws, l.windows[i]);
      }
    }
  }

  /**
   * Under a layout of a retiled store whose first Tile record is shown, each
   * shown Tile record appears at its master/stack rectangle.
   */
  lemma LayoutTiles(ws: seq<Record>, screen: Screen, focus: Option<nat>)
    requires Distinct(Ids(ws)) && (focus.Some? ==> focus.value < |ws|) && Count(Where(ws, IsTiled)) >= 2
    requires FirstWhere(ws, IsTile).Some? && !ws[FirstWhere(ws, IsTile).value].minimised
    ensures var n := Count(Where(ws, IsTiled));
      forall k :: 0 <= k < |ws| && IsTiled(ws[k]) ==>
        Count(Where(ws, IsTiled)[..k]) < n &&
        (ws[k].window, MasterStack(screen, n, Count(Where(ws, IsTiled)[..k]))) in
          MinimisingLayout(Retiled(ws, screen), focus).windows
  {
    var r := Retiled(ws, screen);
    RetiledIsMasterStack(ws, screen);
    forall k | 0 <= k < |ws| && IsTiled(ws[k])
      ensures IsTiled(r[k]) && (r[k].window, r[k].geometry) in EntriesWhere(r, IsTiled)
    {
    }
  }

  /** Two records trade places and the store is retiled (the swaps of `swap_with_master` and `swap_windows`). */
  function SwappedStore(ws: seq<Record>, i: nat, j: nat, screen: Screen): (r: seq<Record>)
    requires i < |ws| && j < |ws|
    ensures |r| == |ws| && Ids(r) == Swap(Ids(ws), i, j)
    ensures r[i].window == ws[j].window && r[j].window == ws[i].window
    ensures forall k :: 0 <= k < |ws| ==> r[k] == Swap(ws, i, j)[k].(geometry := r[k].geometry)
  {
    IdsSwap(ws, i, j);
    Retiled(Swap(ws, i, j), screen)
  }

  /**
   * The ledger after `toggle_minimised(w)`: a minimised id leaves it (this
   * happens before the store is searched, so even for an unmanaged id); a
   * managed id that is not in it is appended.
   */
  function ToggledLedger(ws: seq<Record>, ledger: seq<Window>, w: Window): seq<Window>
  {
    if w in ledger then Unlisted(ledger, w)
    else if w in Ids(ws) then ledger + [w]
    else ledger
  }

  /**
   * The store after `toggle_minimised(w)`: w's record is unminimised when w
   * is in the ledger and minimised otherwise, then the store is retiled; an
   * unmanaged id leaves it alone.
   */
  function ToggledStore(ws: seq<Record>, ledger: seq<Window>, w: Window, screen: Screen): (r: seq<Record>)
    ensures |r| == |ws| && Ids(r) == Ids(ws)
    ensures forall k :: 0 <= k < |ws| ==> r[k].mode == ws[k].mode
  {
    match IndexOf(Ids(ws), w)
    case None => ws
    case Some(i) =>
      IdsUpdate(ws, i, ws[i].(minimised := w !in ledger));
      Retiled(ws[i := ws[i].(minimised := w !in ledger)], screen)
  }

  /**
   * `toggle_minimised` flips w's flag in step with the ledger: from an
   * agreeing state, w's record is minimised afterwards exactly when w is in
   * the new ledger, exactly when it was not minimised before; the ledger
   * still agrees, and no other record's flag moves.
   */
  lemma ToggleKeepsLedger(ws: seq<Record>, ledger: seq<Window>, w: Window, screen: Screen)
    requires Distinct(Ids(ws)) && LedgerAgrees(ws, ledger) && w in Ids(ws)
    ensures var r := ToggledStore(ws, ledger, w, screen);
      var l := ToggledLedger(ws, ledger, w);
      var i := IndexOf(Ids(ws), w).value;
      LedgerAgrees(r, l) &&
      r[i].minimised == (w in l) && r[i].minimised == !ws[i].minimised &&
      forall k :: 0 <= k < |ws| && k != i ==> r[k].minimised == ws[k].minimised
  {
    var i := IndexOf(Ids(ws), w).value;
    var u := ws[i := ws[i].(minimised := w !in ledger)];
    var l := ToggledLedger(ws, ledger, w);
    IdsUpdate(ws, i, u[i]);
    UnlistedRemoves(ledger, w);
    if w !in ledger {
      DistinctAppend(ledger, w);
    }
    forall k | 0 <= k < |ws|
      ensures u[k].minimised <==> u[k].window in l
    {
      if k != i {
        assert Ids(ws)[k] != Ids(ws)[i];
      }
    }
    assert LedgerAgrees(u, l);
    RetiledKeepsLedger(u, l, screen);
  }

  /** Minimising a shown window and unminimising it again restores the ledger and every flag. */
  lemma ToggleTwice(ws: seq<Record>, ledger: seq<Window>, w: Window, screen: Screen)
    requires Distinct(Ids(ws)) && LedgerAgrees(ws, ledger) && w in Ids(ws) && w !in ledger
    ensures var ws1, l1 := ToggledStore(ws, ledger, w, screen), ToggledLedger(ws, ledger, w);
      var ws2, l2 := ToggledStore(ws1, l1, w, screen), ToggledLedger(ws1, l1, w);
      l2 == ledger && |ws2| == |ws| && Ids(ws2) == Ids(ws) &&
      forall k :: 0 <= k < |ws| ==> ws2[k].minimised == ws[k].minimised
  {
    var ws1, l1 := ToggledStore(ws, ledger, w, screen), ToggledLedger(ws, ledger, w);
    ToggleKeepsLedger(ws, ledger, w, screen);
    ToggleKeepsLedger(ws1, l1, w, screen);
    UnlistAppended(ledger, w);
  }

  /**
   * What `focus_window(w)` does to a managed w's flags: a minimised record
   * is toggled back (`ToggledStore`, `ToggledLedger`); a shown one is left
   * alone. `RevealedLedger` is the ledger beside it.
   */
  function Revealed(ws: seq<Record>, ledger: seq<Window>, w: Window, screen: Screen): (r: seq<Record>)
    requires w in Ids(ws)
    ensures |r| == |ws| && Ids(r) == Ids(ws)
    ensures forall k :: 0 <= k < |ws| ==> r[k].mode == ws[k].mode
  {
    if ws[IndexOf(Ids(ws), w).value].minimised then ToggledStore(ws, ledger, w, screen) else ws
  }

  function RevealedLedger(ws: seq<Record>, ledger: seq<Window>, w: Window): seq<Window>
    requires w in Ids(ws)
  {
    if ws[IndexOf(Ids(ws), w).value].minimised then ToggledLedger(ws, ledger, w) else ledger
  }

  /** From an agreeing state, the focused window is shown afterwards, out of the ledger, and the ledger still agrees. */
  lemma RevealShows(ws: seq<Record>, ledger: seq<Window>, w: Window, screen: Screen)
    requires Distinct(Ids(ws)) && LedgerAgrees(ws, ledger) && w in Ids(ws)
    ensures var r, l := Revealed(ws, ledger, w, screen), RevealedLedger(ws, ledger, w);
      LedgerAgrees(r, l) && !r[IndexOf(Ids(ws), w).value].minimised && w !in l
  {
    var i := IndexOf(Ids(ws), w).value;
    if ws[i].minimised {
      ToggleKeepsLedger(ws, ledger, w, screen);
    }
  }

  /**
   * `swap_with_master` on a Tile record makes it the master: after the swap
   * with the first Tile record, the retiling and the unminimising of the
   * focus step, the first Tile record is the one that was moved there.
   */
  lemma SwapMakesMaster(ws: seq<Record>, ledger: seq<Window>, mi: nat, wi: nat, screen: Screen)
    requires FirstWhere(ws, IsTile) == Some(mi) && wi < |ws| && ws[wi].mode == Tile
    ensures var s := SwappedStore(ws, mi, wi, screen);
      ws[wi].window in Ids(s) && FirstWhere(Revealed(s, ledger, ws[wi].window, screen), IsTile) == Some(mi) &&
      Revealed(s, ledger, ws[wi].window, screen)[mi].window == ws[wi].window
  {
    var s := SwappedStore(ws, mi, wi, screen);
    assert Ids(s)[mi] == ws[wi].window;
    var r := Revealed(s, ledger, ws[wi].window, screen);
    assert Ids(r)[mi] == Ids(s)[mi];
    forall k | 0 <= k < |ws|
      ensures IsTile(r[k]) == IsTile(Swap(ws, mi, wi)[k])
    {
      assert r[k].mode == s[k].mode;
    }
    SwapKeepsFirst(ws, IsTile, mi, wi, r);
  }

  /**
   * What `remove_minimised_window(w)` does to the store: the record at w's
   * position in the LEDGER (not w's own) is unminimised; nothing when w is
   * not in the ledger.
   */
  function PurgedStore(ws: seq<Record>, ledger: seq<Window>, w: Window): (r: seq<Record>)
    requires w in ledger ==> IndexOf(ledger, w).value < |ws|
    ensures |r| == |ws| && Ids(r) == Ids(ws)
    ensures forall k :: 0 <= k < |ws| ==> r[k] == ws[k].(minimised := r[k].minimised)
  {
    match IndexOf(ledger, w)
    case None => ws
    case Some(i) =>
      IdsUpdate(ws, i, ws[i].(minimised := false));
      ws[i := ws[i].(minimised := false)]
  }

  /** What `remove_window(w)` needs not to panic: a minimised w's ledger position must name a record of the shortened store. */
  predicate RemovalIsSafe(ws: seq<Record>, ledger: seq<Window>, w: Window)
  {
    w in Ids(ws) && ws[IndexOf(Ids(ws), w).value].minimised && w in ledger ==>
      IndexOf(ledger, w).value < |ws| - 1
  }

  /**
   * The store after `remove_window(w)` on a managed w: the record goes, a
   * minimised one is purged (see `PurgedStore`), and when it was a Tile
   * record the rest is retiled. The remaining ids keep their order.
   */
  function RemovedStore(ws: seq<Record>, ledger: seq<Window>, w: Window, screen: Screen): (r: seq<Record>)
    requires w in Ids(ws) && RemovalIsSafe(ws, ledger, w)
    ensures Ids(r) == RemoveAt(Ids(ws), IndexOf(Ids(ws), w).value)
  {
    var i := IndexOf(Ids(ws), w).value;
    IdsRemoveAt(ws, i);
    var rest := RemoveAt(ws, i);
    var purged := if ws[i].minimised then PurgedStore(rest, ledger, w) else rest;
    if ws[i].mode == Tile then Retiled(purged, screen) else purged
  }

  /** The ledger after `remove_window(w)`: w leaves it when its record was minimised. */
  function RemovedLedger(ws: seq<Record>, ledger: seq<Window>, w: Window): seq<Window>
    requires w in Ids(ws)
  {
    if ws[IndexOf(Ids(ws), w).value].minimised then Unlisted(ledger, w) else ledger
  }

  /**
   * The body of `calculate_tiled_geometries` over the store's value: count
   * the Float and the minimised Tile records, then either run the stacking
   * loop with the first Tile record's id as master or give that record the
   * screen.
   */
  method RetileStore(ws: seq<Record>, screen: Screen) returns (out: seq<Record>)
    ensures out == Retiled(ws, screen)
  {
    out := ws;
    if ws != [] {
      var floating := CollectIdsWhere(ws, IsFloat);
      var minimisedTiled := CollectIdsWhere(ws, IsMinimisedTile);
      var nonTiled := |floating| + |minimisedTiled| + 1;
      var total := |ws|;
      if total > nonTiled {
        var divisor := total - nonTiled;
        assert divisor == Divisor(ws);
        DivisorCountsTiled(ws);
        CountPositive(Where(ws, IsTiled));
        ghost var k :| 0 <= k < |ws| && Where(ws, IsTiled)[k];
        assert Where(ws, IsTile)[k];
        var m := FirstWhere(ws, IsTile).value;
        var hh := SliceHeight(screen.height, divisor);
        out := RestackLoop(ws, IsTiled, ws[m].window, screen, hh);
      } else {
        match FirstWhere(ws, IsTile) {
          case None =>
          case Some(i) =>
            out := ws[i := ws[i].(geometry := ScreenGeometry(screen))];
        }
      }
    }
  }

  class MinimisingWM {
    var windows: seq<Record>
    /** `minimised_windows`: the minimised ids in the order they were minimised. */
    var minimisedWindows: seq<Window>
    var screen: Screen
    var focus: Option<nat>

    /** Every id is stored once and the focus names a record. */
    ghost predicate Valid()
      reads this
    {
      Distinct(Ids(windows)) && (focus.Some? ==> focus.value < |windows|)
    }

    predicate IsManaged(w: Window)
      reads this
    {
      w in Ids(windows)
    }

    /** `is_minimised`: whether w is in the ledger. */
    predicate IsMinimised(w: Window)
      reads this
    {
      w in minimisedWindows
    }

    function FocusedWindow(): Option<Window>
      requires Valid()
      reads this
    {
      FocusedOf(windows, focus)
    }

    /** `get_master_window`: the first Tile record, minimised or not. */
    function MasterWindow(): Option<Window>
      reads this
    {
      match FirstWhere(windows, IsTile)
      case None => None
      case Some(i) => Some(windows[i].window)
    }

    constructor (screen: Screen)
      ensures Valid() && LedgerAgrees(windows, minimisedWindows)
      ensures windows == [] && minimisedWindows == [] && this.screen == screen && focus == None
    {
      windows := [];
      minimisedWindows := [];
      this.screen := screen;
      focus := None;
    }

    method GetWindows() returns (ids: seq<Window>)
      ensures ids == Ids(windows)
    {
      ids := CollectIds(windows);
    }

    /** `get_floating_windows`: every Float record, minimised or not. */
    method GetFloatingWindows() returns (ids: seq<Window>)
      ensures ids == IdsWhere(windows, IsFloat)
    {
      ids := CollectIdsWhere(windows, IsFloat);
    }

    method GetMinimisedWindows() returns (ids: seq<Window>)
      ensures ids == minimisedWindows
    {
      ids := minimisedWindows;
    }

    method GetWindowLayout() returns (l: Layout)
      requires Valid()
      ensures l == MinimisingLayout(windows, focus)
    {
      if windows != [] {
        var tiled := CollectEntries(windows, IsTiled);
        var floating := CollectEntries(windows, IsShownFloat);
        var focused := match focus case None => None case Some(index) => Some(windows[index].window);
        l := Layout(focused, tiled + floating);
      } else {
        l := EmptyLayout;
      }
    }

    /** `calculate_tiled_geometries`: the store becomes `Retiled`. */
    method CalculateTiledGeometries()
      requires Distinct(Ids(windows))
      modifies this
      ensures Distinct(Ids(windows)) && windows == Retiled(old(windows), screen)
      ensures minimisedWindows == old(minimisedWindows) && screen == old(screen) && focus == old(focus)
    {
      windows := RetileStore(windows, screen);
    }

    /**
     * `add_window`: `ManagedWindow` for a managed id; otherwise the record is
     * appended unminimised and focused, and the store is retiled only for a
     * Tile record.
     */
    method AddWindow(info: Info) returns (r: Outcome)
      requires Valid()
      modifies this
      ensures Valid() && screen == old(screen) && minimisedWindows == old(minimisedWindows)
      ensures r == if old(IsManaged(info.window)) then Err(ManagedWindow(info.window)) else Ok
      ensures r.Err? ==> windows == old(windows) && focus == old(focus)
      ensures r.Ok? ==> Ids(windows) == old(Ids(windows)) + [info.window]
      ensures r.Ok? ==> focus == Some(|old(windows)|) && FocusedWindow() == Some(info.window) &&
                        windows == if info.mode == Tile then Retiled(old(windows) + [FromInfo(info)], screen)
                                   else old(windows) + [FromInfo(info)]
      ensures r.Ok? && LedgerAgrees(old(windows), old(minimisedWindows)) ==> LedgerAgrees(windows, minimisedWindows)
    {
      if info.window !in Ids(windows) {
        var record := FromInfo(info);
        IdsAppend(windows, record);
        DistinctAppend(Ids(windows), info.window);
        windows := windows + [record];
        focus := Some(|windows| - 1);
        ghost var added := windows;
        assert LedgerAgrees(old(windows), minimisedWindows) ==> LedgerAgrees(added, minimisedWindows);
        if info.mode == Tile {
          CalculateTiledGeometries();
          if LedgerAgrees(added, minimisedWindows) {
            RetiledKeepsLedger(added, minimisedWindows, screen);
          }
        }
        r := Ok;
      } else {
        r := Err(ManagedWindow(info.window));
      }
    }

    /** `remove_minimised_window(w)`: the ledger loses w and the store is purged as `PurgedStore` says. */
    method RemoveMinimisedWindow(w: Window)
      requires Distinct(Ids(windows)) && (w in minimisedWindows ==> IndexOf(minimisedWindows, w).value < |windows|)
      modifies this
      ensures Distinct(Ids(windows)) && screen == old(screen) && focus == old(focus)
      ensures windows == PurgedStore(old(windows), old(minimisedWindows), w)
      ensures minimisedWindows == Unlisted(old(minimisedWindows), w)
    {
      match IndexOf(minimisedWindows, w) {
        case None =>
        case Some(i) =>
          minimisedWindows := RemoveAt(minimisedWindows, i);
          IdsUpdate(windows, i, windows[i].(minimised := false));
          windows := windows[i := windows[i].(minimised := false)];
      }
    }

    /**
     * `remove_window`: `UnknownWindow` for an unmanaged id; otherwise the
     * record goes, a minimised one is purged from the ledger (which
     * unminimises the wrong record), a Tile one triggers a retiling, and the
     * focus is cleared, decremented or kept.
     */
    method RemoveWindow(w: Window) returns (r: Outcome)
      requires Valid() && RemovalIsSafe(windows, minimisedWindows, w)
      modifies this
      ensures Valid() && screen == old(screen) && !IsManaged(w)
      ensures r == if old(IsManaged(w)) then Ok else Err(UnknownWindow(w))
      ensures r.Err? ==> windows == old(windows) && minimisedWindows == old(minimisedWindows) && focus == old(focus)
      ensures r.Ok? ==>
                windows == RemovedStore(old(windows), old(minimisedWindows), w, screen) &&
                minimisedWindows == RemovedLedger(old(windows), old(minimisedWindows), w) &&
                focus == FocusAfterRemove(old(focus), IndexOf(old(Ids(windows)), w).value)
    {
      match IndexOf(Ids(windows), w)
      case None =>
        r := Err(UnknownWindow(w));
      case Some(i) =>
        var gone := windows[i];
        IdsRemoveAt(windows, i);
        DistinctRemoveAt(Ids(windows), i);
        windows := RemoveAt(windows, i);
        if gone.minimised {
          RemoveMinimisedWindow(gone.window);
        }
        if gone.mode == Tile {
          CalculateTiledGeometries();
        }
        FocusFollowsRemoval(old(windows), i, focus);
        focus := FocusAfterRemove(focus, i);
        r := Ok;
    }

    /**
     * `toggle_minimised(w)`: the store and the ledger become `ToggledStore`
     * and `ToggledLedger`, and the outcome is `UnknownWindow` exactly for an
     * unmanaged id.
     */
    method ToggleMinimised(w: Window) returns (r: Outcome)
      requires Valid()
      modifies this
      ensures Valid() && screen == old(screen) && focus == old(focus)
      ensures r == if old(IsManaged(w)) then Ok else Err(UnknownWindow(w))
      ensures Ids(windows) == old(Ids(windows))
      ensures windows == ToggledStore(old(windows), old(minimisedWindows), w, screen)
      ensures minimisedWindows == ToggledLedger(old(windows), old(minimisedWindows), w)
    {
      if w in minimisedWindows {
        minimisedWindows := RemoveAt(minimisedWindows, IndexOf(minimisedWindows, w).value);
        match IndexOf(Ids(windows), w)
        case None =>
          r := Err(UnknownWindow(w));
        case Some(i) =>
          IdsUpdate(windows, i, windows[i].(minimised := false));
          windows := windows[i := windows[i].(minimised := false)];
          CalculateTiledGeometries();
          r := Ok;
      } else {
        match IndexOf(Ids(windows), w)
        case None =>
          r := Err(UnknownWindow(w));
        case Some(i) =>
          IdsUpdate(windows, i, windows[i].(minimised := true));
          windows := windows[i := windows[i].(minimised := true)];
          minimisedWindows := minimisedWindows + [w];
          CalculateTiledGeometries();
          r := Ok;
      }
    }

    /**
     * `focus_window`: None clears the focus; an unmanaged id is
     * `UnknownWindow`; otherwise w is focused and, when its record is
     * minimised, toggled back.
     */
    method FocusWindow(window: Option<Window>) returns (r: Outcome)
      requires Valid()
      modifies this
      ensures Valid() && screen == old(screen)
      ensures window.None? ==>
                r == Ok && focus == None && windows == old(windows) && minimisedWindows == old(minimisedWindows)
      ensures window.Some? && !old(IsManaged(window.value)) ==>
                r == Err(UnknownWindow(window.value)) && windows == old(windows) &&
                minimisedWindows == old(minimisedWindows) && focus == old(focus)
      ensures window.Some? && old(IsManaged(window.value)) ==>
                r == Ok && focus == Some(IndexOf(old(Ids(windows)), window.value).value) && FocusedWindow() == window &&
                windows == Revealed(old(windows), old(minimisedWindows), window.value, screen) &&
                minimisedWindows == RevealedLedger(old(windows), old(minimisedWindows), window.value)
    {
      match window
      case None =>
        focus := None;
        r := Ok;
      case Some(gw) =>
        match IndexOf(Ids(windows), gw)
        case None =>
          r := Err(UnknownWindow(gw));
        case Some(i) =>
          focus := Some(i);
          if windows[i].minimised {
            r := ToggleMinimised(gw);
          } else {
            r := Ok;
          }
    }

    /**
     * `cycle_focus`: the focus moves as `CycledFocus` says, and then the
     * newly focused window's minimised state is toggled, so a shown window
     * that receives the focus is minimised.
     */
    method CycleFocus(dir: Direction)
      requires Valid()
      modifies this
      ensures Valid() && screen == old(screen)
      ensures focus == CycledFocus(old(focus), |old(windows)|, dir)
      ensures focus.None? ==> windows == old(windows) && minimisedWindows == old(minimisedWindows)
      ensures focus.Some? ==>
                var w := old(windows)[focus.value].window;
                windows == ToggledStore(old(windows), old(minimisedWindows), w, screen) &&
                minimisedWindows == ToggledLedger(old(windows), old(minimisedWindows), w)
    {
      if |windows| > 1 {
        match focus
        case None =>
          focus := Some(0);
        case Some(index) =>
          match dir
          case Prev =>
            if index != 0 {
              focus := Some(index - 1);
            } else {
              focus := Some(|windows| - 1);
            }
          case Next =>
            if index != |windows| - 1 {
              focus := Some(index + 1);
            } else {
              focus := Some(0);
            }
      } else if |windows| == 1 {
        focus := Some(0);
      }
      match focus {
        case None =>
        case Some(index) =>
          var _ := ToggleMinimised(windows[index].window);
      }
    }

    /** `resize_screen`: the new screen, then a retiling. */
    method ResizeScreen(screen: Screen)
      requires Valid()
      modifies this
      ensures Valid() && this.screen == screen && windows == Retiled(old(windows), screen)
      ensures minimisedWindows == old(minimisedWindows) && focus == old(focus)
    {
      this.screen := screen;
      CalculateTiledGeometries();
    }

    /**
     * `swap_with_master`: `UnknownWindow` for an unmanaged id; `Ok` and no
     * change without a Tile record; otherwise w trades places with the first
     * Tile record, the store is retiled and w is focused there (and toggled
     * back when minimised). A Tile w then is the master.
     */
    method SwapWithMaster(w: Window) returns (r: Outcome)
      requires Valid()
      modifies this
      ensures Valid() && screen == old(screen)
      ensures r == if old(IsManaged(w)) then Ok else Err(UnknownWindow(w))
      ensures r.Err? || old(MasterWindow()).None? ==>
                windows == old(windows) && minimisedWindows == old(minimisedWindows) && focus == old(focus)
      ensures r.Ok? && old(MasterWindow()).Some? ==>
                var mi := FirstWhere(old(windows), IsTile).value;
                var wi := IndexOf(old(Ids(windows)), w).value;
                var swapped := SwappedStore(old(windows), mi, wi, screen);
                focus == Some(mi) && FocusedWindow() == Some(w) &&
                windows == Revealed(swapped, old(minimisedWindows), w, screen) &&
                minimisedWindows == RevealedLedger(swapped, old(minimisedWindows), w)
      ensures r.Ok? && old(IsManaged(w)) && old(windows)[IndexOf(old(Ids(windows)), w).value].mode == Tile ==>
                MasterWindow() == Some(w)
    {
      match IndexOf(Ids(windows), w)
      case None =>
        r := Err(UnknownWindow(w));
      case Some(wi) =>
        match FirstWhere(windows, IsTile)
        case None =>
          r := Ok;
        case Some(mi) =>
          ghost var before := windows;
          IdsSwap(windows, mi, wi);
          DistinctSwap(Ids(windows), mi, wi);
          windows := Swap(windows, mi, wi);
          CalculateTiledGeometries();
          assert windows == SwappedStore(before, mi, wi, screen);
          assert Ids(windows)[mi] == w;
          DistinctIndexOf(Ids(windows), mi);
          r := FocusWindow(Some(w));
          if before[wi].mode == Tile {
            SwapMakesMaster(before, old(minimisedWindows), mi, wi, screen);
          }
    }

    /**
     * `swap_windows`: with two or more records and a focused Tile record
     * (shown or not), the focused record trades places with the nearest
     * shown Tile record in direction `dir` (see `Neighbour`), the focus
     * follows it, and the store is retiled; otherwise nothing changes.
     */
    method SwapWindows(dir: Direction)
      requires Valid()
      modifies this
      ensures Valid() && screen == old(screen) && minimisedWindows == old(minimisedWindows)
      ensures var f := old(focus);
        if |old(windows)| > 1 && f.Some? && old(windows)[f.value].mode == Tile &&
           Neighbour(Where(old(windows), IsTiled), f.value, dir).Some? then
          var j := Neighbour(Where(old(windows), IsTiled), f.value, dir).value;
          windows == SwappedStore(old(windows), f.value, j, screen) && focus == Some(j) &&
          windows[j].window == old(windows)[f.value].window && IsTiled(old(windows)[j])
        else windows == old(windows) && focus == old(focus)
    {
      if |windows| > 1 {
        match focus {
          case None =>
          case Some(index) =>
            if windows[index].mode == Tile {
              match Neighbour(Where(windows, IsTiled), index, dir) {
                case None =>
                case Some(j) =>
                  focus := Some(j);
                  IdsSwap(windows, index, j);
                  DistinctSwap(Ids(windows), index, j);
                  windows := Swap(windows, index, j);
                  CalculateTiledGeometries();
              }
            }
        }
      }
    }

    /**
     * `toggle_floating`: `UnknownWindow` for an unmanaged id; otherwise the
     * record is flipped in place (see `Flipped`) and the store retiled.
     */
    method ToggleFloating(w: Window) returns (r: Outcome)
      requires Valid()
      modifies this
      ensures Valid() && screen == old(screen) && focus == old(focus) && minimisedWindows == old(minimisedWindows)
      ensures r == if old(IsManaged(w)) then Ok else Err(UnknownWindow(w))
      ensures r.Err? ==> windows == old(windows)
      ensures r.Ok? ==>
                var i := IndexOf(old(Ids(windows)), w).value;
                windows == Retiled(old(windows)[i := Flipped(old(windows)[i])], screen)
    {
      match IndexOf(Ids(windows), w)
      case None =>
        r := Err(UnknownWindow(w));
      case Some(i) =>
        IdsUpdate(windows, i, Flipped(windows[i]));
        if windows[i].mode == Tile {
          windows := windows[i := windows[i].(geometry := windows[i].savedGeometry, mode := Float)];
        } else {
          windows := windows[i := windows[i].(mode := Tile)];
        }
        CalculateTiledGeometries();
        r := Ok;
    }

    /**
     * `set_window_geometry`: `UnknownWindow` for an unmanaged id,
     * `NoFloatingWindow` for a Tile record; otherwise both the geometry and
     * the saved geometry become `g`, with no retiling.
     */
    method SetWindowGeometry(w: Window, g: Geometry) returns (r: Outcome)
      requires Valid()
      modifies this
      ensures Valid() && screen == old(screen) && focus == old(focus) && minimisedWindows == old(minimisedWindows)
      ensures !old(IsManaged(w)) ==> r == Err(UnknownWindow(w)) && windows == old(windows)
      ensures old(IsManaged(w)) ==>
                var i := IndexOf(old(Ids(windows)), w).value;
                if old(windows)[i].mode == Tile then r == Err(NoFloatingWindow(w)) && windows == old(windows)
                else r == Ok && windows == old(windows)[i := old(windows)[i].(geometry := g, savedGeometry := g)]
    {
      match IndexOf(Ids(windows), w)
      case None =>
        r := Err(UnknownWindow(w));
      case Some(i) =>
        if windows[i].mode == Tile {
          r := Err(NoFloatingWindow(windows[i].window));
        } else {
          IdsUpdate(windows, i, windows[i].(geometry := g, savedGeometry := g));
          windows := windows[i := windows[i].(savedGeometry := g, geometry := g)];
          r := Ok;
        }
    }
  }

  /**
   * `remove_window` breaks the ledger: with floating windows 1, 2, 3, of
   * which 3 and then 2 were minimised (ledger [3, 2]), removing 2 purges
   * position 1 of the ledger from the shortened store [1, 3], which is 3's
   * record. The ledger keeps 3 while its record is shown, so the ledger and
   * the flags disagree although they agreed before.
   */
  lemma StaleLedgerAfterRemove(g: Geometry, screen: Screen)
    ensures var ws := [Record(1, g, g, Float, false, false), Record(2, g, g, Float, false, true),
                       Record(3, g, g, Float, false, true)];
      LedgerAgrees(ws, [3, 2]) && RemovalIsSafe(ws, [3, 2], 2) &&
      var after, ledger := RemovedStore(ws, [3, 2], 2, screen), RemovedLedger(ws, [3, 2], 2);
      ledger == [3] && Ids(after) == [1, 3] && !after[1].minimised && !LedgerAgrees(after, ledger)
  {
    var a, b, c := Record(1, g, g, Float, false, false), Record(2, g, g, Float, false, true),
                   Record(3, g, g, Float, false, true);
    StaleLedgerBefore(a, b, c);
    StaleLedgerAfter(a, b, c, screen);
    var after := [a, c.(minimised := false)];
    IdsOfTwo(a, c.(minimised := false));
    assert !(after[1].minimised <==> after[1].window in [3]);
  }

  lemma StaleLedgerBefore(a: Record, b: Record, c: Record)
    requires a.window == 1 && b.window == 2 && c.window == 3 && !a.minimised && b.minimised && c.minimised
    ensures LedgerAgrees([a, b, c], [3, 2]) && RemovalIsSafe([a, b, c], [3, 2], 2)
    ensures IndexOf(Ids([a, b, c]), 2) == Some(1) && RemovedLedger([a, b, c], [3, 2], 2) == [3]
  {
    IdsOfThree(a, b, c);
    IndexOfMiddle(1, 2, 3);
    IndexOfSecond(3, 2);
    RemoveSecond(3, 2);
  }

  lemma StaleLedgerAfter(a: Record, b: Record, c: Record, screen: Screen)
    requires a.window == 1 && b.window == 2 && c.window == 3 && c.mode == Float && b.mode == Float && b.minimised
    requires IndexOf(Ids([a, b, c]), 2) == Some(1) && RemovalIsSafe([a, b, c], [3, 2], 2)
    ensures RemovedStore([a, b, c], [3, 2], 2, screen) == [a, c.(minimised := false)]
  {
    IndexOfSecond(3, 2);
    RemoveMiddle(a, b, c);
    assert RemovedStore([a, b, c], [3, 2], 2, screen) == PurgedStore([a, c], [3, 2], 2);
    assert [a, c][1 := c.(minimised := false)] == [a, c.(minimised := false)];
  }

  /**
   * `cycle_focus` flips the minimised state of the window it lands on: from
   * an agreeing state, a shown window that receives the focus ends up
   * minimised and in the ledger, and a minimised one is shown again.
   */
  lemma CycleTogglesFocused(ws: seq<Record>, ledger: seq<Window>, focus: Option<nat>, dir: Direction, screen: Screen)
    requires Distinct(Ids(ws)) && LedgerAgrees(ws, ledger) && ws != [] && (focus.Some? ==> focus.value < |ws|)
    ensures var f := CycledFocus(focus, |ws|, dir).value;
      var r := ToggledStore(ws, ledger, ws[f].window, screen);
      var l := ToggledLedger(ws, ledger, ws[f].window);
      r[f].minimised == !ws[f].minimised && (ws[f].window in l <==> !ws[f].minimised) && LedgerAgrees(r, l)
  {
    var f := CycledFocus(focus, |ws|, dir).value;
    DistinctIndexOf(Ids(ws), f);
    ToggleKeepsLedger(ws, ledger, ws[f].window, screen);
  }
}
