/**
 * The second tiling manager (`b_tiling_wm_w.rs`): like the first, but the
 * focus is optional, removing the focused window clears it, and the
 * master/stack rectangles are also written into the stored records by
 * `calculate_tiled_geometries` whenever the store changes shape.
 */
module TilingOptionManager {
  import opened Basics
  import opened Sequences
  import opened Scans
  import opened InfoTiling

  /**
   * What `calculate_tiled_geometries` leaves in the store: with two or more
   * records, the stacking loop's rectangle in every record; with one, the
   * screen; with none, nothing.
   */
  function Retiled(ws: seq<Info>, screen: Screen): seq<Info>
  {
    if ws == [] then ws
    else if |ws| - 1 > 0 then
      Restacked(ws, ws[0].window, screen, SliceHeight(screen.height, |ws| - 1))
    else ws[0 := ws[0].(geometry := ScreenGeometry(screen))]
  }

  /** The rectangle position k of n tiled records is meant to get. */
  function TiledGeometry(screen: Screen, n: nat, k: nat): Geometry
    requires k < n
  {
    if n >= 2 then MasterStack(screen, n, k) else ScreenGeometry(screen)
  }

  /**
   * With distinct ids, retiling changes only geometries, and gives position
   * k the master/stack rectangle of k among all records (a lone record gets
   * the screen).
   */
  lemma RetiledIsMasterStack(ws: seq<Info>, screen: Screen)
    requires Distinct(Ids(ws))
    ensures |Retiled(ws, screen)| == |ws| && Ids(Retiled(ws, screen)) == Ids(ws)
    ensures forall k :: 0 <= k < |ws| ==>
              Retiled(ws, screen)[k] == ws[k].(geometry := TiledGeometry(screen, |ws|, k))
  {
    if |ws| >= 2 {
      forall k | 0 <= k < |ws|
        ensures Retiled(ws, screen)[k] == ws[k].(geometry := TiledGeometry(screen, |ws|, k))
      {
        StackedIsMasterStack(ws, screen, k);
      }
    }
  }

  /**
   * `get_window_layout`: the rectangles are recomputed from the screen and
   * the store order (two or more records: the stacking loop; one: the
   * screen), the stored geometries are not read, and the focus is read from
   * the index.
   */
  function TilingLayout(ws: seq<Info>, screen: Screen, focus: Option<nat>): Layout
    requires focus.Some? ==> focus.value < |ws|
  {
    if ws == [] then EmptyLayout
    else if |ws| > 1 then
      Layout(FocusedOf(ws, focus), StackedEntries(ws, ws[0].window, screen, SliceHeight(screen.height, |ws| - 1)))
    else
      Layout(FocusedOf(ws, focus), [(ws[0].window, ScreenGeometry(screen))])
  }

  /**
   * The layout reports, for every record in store order, the rectangle
   * retiling would store in it; so, with distinct ids, the master/stack
   * rectangles.
   */
  lemma LayoutMatchesRetiled(ws: seq<Info>, screen: Screen, focus: Option<nat>)
    requires Distinct(Ids(ws)) && (focus.Some? ==> focus.value < |ws|)
    ensures var l := TilingLayout(ws, screen, focus);
      |l.windows| == |ws| && l.focusedWindow == FocusedOf(ws, focus) &&
      forall k :: 0 <= k < |ws| ==>
        l.windows[k] == (ws[k].window, Retiled(ws, screen)[k].geometry) &&
        l.windows[k] == (ws[k].window, TiledGeometry(screen, |ws|, k))
  {
    RetiledIsMasterStack(ws, screen);
  }

  class TillingWM {
    var windows: seq<Info>
    var screen: Screen
    var focus: Option<nat>

    /** Every id is stored once and the focus names a record. */
    ghost predicate Valid()
      reads this
    {
      Distinct(Ids(windows)) && (focus.Some? ==> focus.value < |windows|)
    }

    predicate IsManaged(w: Window)
      reads this
    {
      w in Ids(windows)
    }

    /** `get_focused_window`. */
    function FocusedWindow(): Option<Window>
      requires Valid()
      reads this
    {
      FocusedOf(windows, focus)
    }

    /** `get_master_window`: the first record. */
    function MasterWindow(): Option<Window>
      reads this
    {
      if windows != [] then Some(windows[0].window) else None
    }

    /** `new`, as the non-compiling original evidently means it: empty, nothing focused. */
    constructor (screen: Screen)
      ensures Valid() && windows == [] && this.screen == screen && focus == None
    {
      windows := [];
      this.screen := screen;
      focus := None;
    }

    method GetWindows() returns (ids: seq<Window>)
      ensures ids == Ids(windows)
    {
      ids := CollectIds(windows);
    }

    /** The `calculate_tiled_geometries` loop over the stored records. */
    method CalculateTiledGeometries()
      requires Valid()
      modifies this
      ensures Valid() && windows == Retiled(old(windows), screen)
      ensures screen == old(screen) && focus == old(focus)
    {
      if windows != [] {
        var divisor := |windows| - 1;
        if divisor > 0 {
          windows := RestackLoop(windows, windows[0].window, screen, screen.height / divisor);
        } else {
          windows := windows[0 := windows[0].(geometry := ScreenGeometry(screen))];
          assert Ids(windows) == Ids(old(windows));
        }
      }
    }

    /** The `get_window_layout` loop, read-only. */
    method GetWindowLayout() returns (l: Layout)
      requires Valid()
      ensures l == TilingLayout(windows, screen, focus)
    {
      if windows != [] {
        var focused := match focus case None => None case Some(index) => Some(windows[index].window);
        if |windows| > 1 {
          var hh := SliceHeight(screen.height, |windows| - 1);
          var entries := StackLayoutLoop(windows, windows[0].window, screen, hh);
          l := Layout(focused, entries);
        } else {
          l := Layout(focused, [(windows[0].window, ScreenGeometry(screen))]);
        }
      } else {
        l := EmptyLayout;
      }
    }

    /**
     * `add_window`: `ManagedWindow` for a managed id; otherwise the record is
     * appended, focused, and the geometries are recomputed.
     */
    method AddWindow(info: Info) returns (r: Outcome)
      requires Valid()
      modifies this
      ensures Valid() && screen == old(screen)
      ensures r == if old(IsManaged(info.window)) then Err(ManagedWindow(info.window)) else Ok
      ensures r.Err? ==> windows == old(windows) && focus == old(focus)
      ensures r.Ok? ==> windows == Retiled(old(windows) + [info], screen) && focus == Some(|windows| - 1)
      ensures r.Ok? ==> FocusedWindow() == Some(info.window)
    {
      if info.window !in Ids(windows) {
        IdsAppend(windows, info);
        DistinctAppend(Ids(windows), info.window);
        windows := windows + [info];
        focus := Some(|windows| - 1);
        CalculateTiledGeometries();
        RetiledIsMasterStack(old(windows) + [info], screen);
        r := Ok;
      } else {
        r := Err(ManagedWindow(info.window));
      }
    }

    /**
     * `remove_window`: `UnknownWindow` for an unmanaged id; otherwise the
     * record goes, the focus follows the window it named (None if that was
     * the removed one), and the stored geometries are left as they were.
     */
    method RemoveWindow(w: Window) returns (r: Outcome)
      requires Valid()
      modifies this
      ensures Valid() && screen == old(screen) && !IsManaged(w)
      ensures r == if old(IsManaged(w)) then Ok else Err(UnknownWindow(w))
      ensures r.Err? ==> windows == old(windows) && focus == old(focus)
      ensures r.Ok? ==>
                var i := IndexOf(old(Ids(windows)), w).value;
                windows == RemoveAt(old(windows), i) && focus == FocusAfterRemove(old(focus), i)
    {
      match IndexOf(Ids(windows), w)
      case None =>
        r := Err(UnknownWindow(w));
      case Some(i) =>
        IdsRemoveAt(windows, i);
        DistinctRemoveAt(Ids(windows), i);
        windows := RemoveAt(windows, i);
        match focus {
          case None =>
          case Some(index) =>
            if index == i {
              focus := None;
            } else {
              var temp := index;
              if index > i {
                temp := index - 1;
              }
              focus := Some(temp);
            }
        }
        r := Ok;
    }

    /**
     * `focus_window`: None clears the focus, an unmanaged id is
     * `UnknownWindow`, and otherwise the focus is set to the window's index.
     */
    method FocusWindow(window: Option<Window>) returns (r: Outcome)
      requires Valid()
      modifies this
      ensures Valid() && windows == old(windows) && screen == old(screen)
      ensures window.None? ==> r == Ok && focus == None
      ensures window.Some? && !IsManaged(window.value) ==>
                r == Err(UnknownWindow(window.value)) && focus == old(focus)
      ensures window.Some? && IsManaged(window.value) ==>
                r == Ok && focus == IndexOf(Ids(windows), window.value) && FocusedWindow() == window
    {
      match window
      case None =>
        focus := None;
        r := Ok;
      case Some(gw) =>
        match IndexOf(Ids(windows), gw)
        case None =>
          r := Err(UnknownWindow(gw));
        case Some(i) =>
          focus := Some(i);
          r := Ok;
    }

    /** `cycle_focus`: see `CycledFocus`. */
    method CycleFocus(dir: Direction)
      requires Valid()
      modifies this
      ensures Valid() && windows == old(windows) && screen == old(screen)
      ensures focus == CycledFocus(old(focus), |windows|, dir)
    {
      if |windows| > 1 {
        match focus
        case None =>
          focus := Some(0);
        case Some(index) =>
          match dir
          case Prev =>
            if index != 0 {
              focus := Some(index - 1);
            } else {
              focus := Some(|windows| - 1);
            }
          case Next =>
            if index != |windows| - 1 {
              focus := Some(index + 1);
            } else {
              focus := Some(0);
            }
      } else if |windows| == 1 {
        focus := Some(0);
      }
    }

    /**
     * `swap_with_master`: `UnknownWindow` for an unmanaged id; otherwise w
     * trades places with the first record, the geometries are recomputed,
     * and w, now the master, is focused.
     */
    method SwapWithMaster(w: Window) returns (r: Outcome)
      requires Valid()
      modifies this
      ensures Valid() && screen == old(screen)
      ensures r == if old(IsManaged(w)) then Ok else Err(UnknownWindow(w))
      ensures r.Err? ==> windows == old(windows) && focus == old(focus)
      ensures r.Ok? ==>
                windows == Retiled(Swap(old(windows), 0, IndexOf(old(Ids(windows)), w).value), screen) &&
                focus == Some(0) && MasterWindow() == Some(w) && FocusedWindow() == Some(w)
    {
      match IndexOf(Ids(windows), w)
      case None =>
        r := Err(UnknownWindow(w));
      case Some(i) =>
        IdsSwap(windows, 0, i);
        DistinctSwap(Ids(windows), 0, i);
        windows := Swap(windows, 0, i);
        var master := MasterWindow();
        ghost var swapped := windows;
        CalculateTiledGeometries();
        RetiledIsMasterStack(swapped, screen);
        r := FocusWindow(master);
        DistinctIndexOf(Ids(windows), 0);
    }

    /**
     * `swap_windows`: with two or more records and a focus, the focused
     * record trades places with its circular neighbour in direction `dir`,
     * the focus follows it, and the geometries are recomputed; otherwise
     * nothing changes.
     */
    method SwapWindows(dir: Direction)
      requires Valid()
      modifies this
      ensures Valid() && screen == old(screen)
      ensures |old(windows)| <= 1 || old(focus).None? ==> windows == old(windows) && focus == old(focus)
      ensures |old(windows)| > 1 && old(focus).Some? ==>
                var j := Step(old(focus).value, |old(windows)|, dir);
                windows == Retiled(Swap(old(windows), old(focus).value, j), screen) && focus == Some(j) &&
                windows[j].window == old(windows)[old(focus).value].window
    {
      if |windows| > 1 {
        match focus
        case None =>
        case Some(index) =>
          var j := Step(index, |windows|, dir);
          IdsSwap(windows, index, j);
          DistinctSwap(Ids(windows), index, j);
          focus := Some(j);
          windows := Swap(windows, index, j);
          ghost var swapped := windows;
          CalculateTiledGeometries();
          RetiledIsMasterStack(swapped, screen);
      }
    }
  }
}
