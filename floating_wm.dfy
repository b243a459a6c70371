/**
 * The floating manager (`c_floating_windows.rs`): the tiling manager with an
 * optional focus, where a record may also be Float. The layout lists the
 * Float records first, at their own geometries, and then the Tile records
 * at master/stack rectangles; the store order and the focus work as in the
 * tiling managers, over all records whatever their mode.
 */
module FloatingManager {
  import opened Basics
  import opened Sequences
  import opened Scans
  import opened InfoTiling

  /**
   * `get_window_layout`. With two or more records: the Float records with
   * their own geometries, then the Tile records through the stacking loop,
   * whose master is the first record's id and whose slice height divides the
   * screen by the number of ALL records minus one. With one record: the
   * screen for a Tile record, its own geometry for a Float one.
   */
  function FloatingLayout(ws: seq<Info>, screen: Screen, focus: Option<nat>): Layout
    requires focus.Some? ==> focus.value < |ws|
  {
    if ws == [] then EmptyLayout
    else if |ws| > 1 then
      Layout(FocusedOf(ws, focus),
             OwnEntries(WithMode(ws, Float)) +
             StackedEntries(WithMode(ws, Tile), ws[0].window, screen, SliceHeight(screen.height, |ws| - 1)))
    else if ws[0].mode == Tile then
      Layout(FocusedOf(ws, focus), [(ws[0].window, ScreenGeometry(screen))])
    else
      Layout(FocusedOf(ws, focus), [(ws[0].window, ws[0].geometry)])
  }

  /**
   * The rectangle the k-th Tile record (in store order) is shown at, with
   * slices of height `hh`: if the first record is Tile it is the master on
   * the left half and the others take the right-half slices from the top;
   * if the first record floats, no Tile record is the master and even the
   * first one takes a slice.
   */
  function TileSlot(screen: Screen, hh: nat, firstTiles: bool, k: nat): Geometry
  {
    if firstTiles && k == 0 then Geometry(0, 0, screen.width / 2, screen.height)
    else Geometry(screen.width / 2, (if firstTiles then k - 1 else k) * hh, screen.width / 2, hh)
  }

  /** A master leading distinct records: it gets the left half, and the k-th record slice k - 1. */
  lemma SlotsWithMaster(tl: seq<Info>, screen: Screen, hh: nat, k: nat)
    requires Distinct(Ids(tl)) && k < |tl|
    ensures StackedGeometry(tl, tl[0].window, screen, hh, k) == TileSlot(screen, hh, true, k)
  {
    if k > 0 {
      assert Ids(tl)[0] != Ids(tl)[k];
      NotMasterCount(tl, k);
      StackedSlice(tl, tl[0].window, screen, hh, k, k - 1);
    }
  }

  /** A master id that none of the records has: the k-th record takes slice k. */
  lemma SlotsWithoutMaster(tl: seq<Info>, master: Window, screen: Screen, hh: nat, k: nat)
    requires master !in Ids(tl) && k < |tl|
    ensures StackedGeometry(tl, master, screen, hh, k) == TileSlot(screen, hh, false, k)
  {
    var mask := NotMasterMask(tl, master);
    forall t | 0 <= t < |tl|
      ensures mask[t]
    {
      assert Ids(tl)[t] == tl[t].window;
    }
    assert mask[k];
    CountAllMarked(mask, k);
    StackedSlice(tl, master, screen, hh, k, k);
  }

  /** A Float first record's id is not among the Tile records. */
  lemma FirstNotTiled(ws: seq<Info>)
    requires Distinct(Ids(ws)) && ws != [] && ws[0].mode == Float
    ensures ws[0].window !in Ids(WithMode(ws, Tile))
  {
    var tl := WithMode(ws, Tile);
    forall t | 0 <= t < |tl|
      ensures Ids(tl)[t] != ws[0].window
    {
      assert tl[t] in tl;
      var j :| 0 <= j < |ws| && ws[j] == tl[t];
      assert Ids(ws)[j] == tl[t].window && Ids(ws)[0] == ws[0].window;
    }
  }

  /** The stacking loop over the Tile records puts the k-th of them at its `TileSlot`. */
  lemma TileEntriesAtSlots(ws: seq<Info>, screen: Screen, hh: nat)
    requires Distinct(Ids(ws)) && ws != []
    ensures var tl := WithMode(ws, Tile);
      var te := StackedEntries(tl, ws[0].window, screen, hh);
      forall k :: 0 <= k < |tl| ==> te[k] == (tl[k].window, TileSlot(screen, hh, ws[0].mode == Tile, k))
  {
    var tl := WithMode(ws, Tile);
    var te := StackedEntries(tl, ws[0].window, screen, hh);
    DistinctWithMode(ws, Tile);
    if ws[0].mode == Tile {
      WithModeHead(ws, Tile);
      forall k | 0 <= k < |tl|
        ensures te[k] == (tl[k].window, TileSlot(screen, hh, true, k))
      {
        SlotsWithMaster(tl, screen, hh, k);
      }
    } else {
      FirstNotTiled(ws);
      forall k | 0 <= k < |tl|
        ensures te[k] == (tl[k].window, TileSlot(screen, hh, false, k))
      {
        SlotsWithoutMaster(tl, ws[0].window, screen, hh, k);
      }
    }
  }

  /**
   * With two or more distinct records, the Float records come first, in
   * store order, at their own geometries, and the Tile records follow, in
   * store order, at their `TileSlot`s; the focus is read from the index.
   */
  lemma FloatingLayoutOrder(ws: seq<Info>, screen: Screen, focus: Option<nat>)
    requires Distinct(Ids(ws)) && |ws| >= 2 && (focus.Some? ==> focus.value < |ws|)
    ensures var l := FloatingLayout(ws, screen, focus);
      var fl := WithMode(ws, Float);
      var tl := WithMode(ws, Tile);
      var hh := SliceHeight(screen.height, |ws| - 1);
      l.focusedWindow == FocusedOf(ws, focus) &&
      |l.windows| == |fl| + |tl| &&
      (forall k :: 0 <= k < |fl| ==> l.windows[k] == (fl[k].window, fl[k].geometry)) &&
      (forall k :: 0 <= k < |tl| ==> l.windows[|fl| + k] == (tl[k].window, TileSlot(screen, hh, ws[0].mode == Tile, k)))
  {
    var fl := WithMode(ws, Float);
    var tl := WithMode(ws, Tile);
    var hh := SliceHeight(screen.height, |ws| - 1);
    var te := StackedEntries(tl, ws[0].window, screen, hh);
    assert FloatingLayout(ws, screen, focus).windows == OwnEntries(fl) + te;
    TileEntriesAtSlots(ws, screen, hh);
  }

  /**
   * Every record is shown exactly once, whatever the modes; a single record
   * fills the screen when it tiles and keeps its geometry when it floats.
   */
  lemma FloatingLayoutShowsAll(ws: seq<Info>, screen: Screen, focus: Option<nat>)
    requires focus.Some? ==> focus.value < |ws|
    ensures var l := FloatingLayout(ws, screen, focus);
      multiset(Shown(l.windows)) == multiset(Ids(ws)) &&
      (|ws| == 1 ==>
         l.windows == [(ws[0].window, if ws[0].mode == Tile then ScreenGeometry(screen) else ws[0].geometry)])
  {
    var l := FloatingLayout(ws, screen, focus);
    if |ws| >= 2 {
      var fl := WithMode(ws, Float);
      var tl := WithMode(ws, Tile);
      var te := StackedEntries(tl, ws[0].window, screen, SliceHeight(screen.height, |ws| - 1));
      assert l.windows == OwnEntries(fl) + te;
      assert Shown(l.windows) == Ids(fl) + Ids(tl);
      WithModePartition(ws);
    } else if |ws| == 1 {
      assert Ids(ws) == [ws[0].window];
      assert Shown(l.windows) == [ws[0].window];
    }
  }

  class FloatingWM {
    var windows: seq<Info>
    var screen: Screen
    var focus: Option<nat>

    /** Every id is stored once and the focus names a record. */
    ghost predicate Valid()
      reads this
    {
      Distinct(Ids(windows)) && (focus.Some? ==> focus.value < |windows|)
    }

    predicate IsManaged(w: Window)
      reads this
    {
      w in Ids(windows)
    }

    /** `get_focused_window`. */
    function FocusedWindow(): Option<Window>
      requires Valid()
      reads this
    {
      FocusedOf(windows, focus)
    }

    /** `get_master_window`: the first record, whatever its mode. */
    function MasterWindow(): Option<Window>
      reads this
    {
      if windows != [] then Some(windows[0].window) else None
    }

    /** `new`: empty, nothing focused. */
    constructor (screen: Screen)
      ensures Valid() && windows == [] && this.screen == screen && focus == None
    {
      windows := [];
      this.screen := screen;
      focus := None;
    }

    method GetWindows() returns (ids: seq<Window>)
      ensures ids == Ids(windows)
    {
      ids := CollectIds(windows);
    }

    /** The two loops of `get_window_layout`, read-only. */
    method GetWindowLayout() returns (l: Layout)
      requires Valid()
      ensures l == FloatingLayout(windows, screen, focus)
    {
      if windows != [] {
        var focused := match focus case None => None case Some(index) => Some(windows[index].window);
        if |windows| > 1 {
          var floating := CollectFloating(windows);
          var hh := SliceHeight(screen.height, |windows| - 1);
          var tiled := StackLayoutLoop(WithMode(windows, Tile), windows[0].window, screen, hh);
          l := Layout(focused, floating + tiled);
        } else if windows[0].mode == Tile {
          l := Layout(focused, [(windows[0].window, ScreenGeometry(screen))]);
        } else {
          l := Layout(focused, [(windows[0].window, windows[0].geometry)]);
        }
      } else {
        l := EmptyLayout;
      }
    }

    /**
     * `add_window`: `ManagedWindow` for a managed id; otherwise the record is
     * appended unchanged, whatever its mode, and focused.
     */
    method AddWindow(info: Info) returns (r: Outcome)
      requires Valid()
      modifies this
      ensures Valid() && screen == old(screen)
      ensures r == if old(IsManaged(info.window)) then Err(ManagedWindow(info.window)) else Ok
      ensures r.Err? ==> windows == old(windows) && focus == old(focus)
      ensures r.Ok? ==> windows == old(windows) + [info] && focus == Some(|windows| - 1)
      ensures r.Ok? ==> FocusedWindow() == Some(info.window)
    {
      if info.window !in Ids(windows) {
        IdsAppend(windows, info);
        DistinctAppend(Ids(windows), info.window);
        windows := windows + [info];
        focus := Some(|windows| - 1);
        r := Ok;
      } else {
        r := Err(ManagedWindow(info.window));
      }
    }

    /**
     * `remove_window`: `UnknownWindow` for an unmanaged id. Otherwise the
     * record goes; a focus on it becomes None, and any other focus index is
     * decremented, whichever side of it the removed record was on, so the
     * focus stays on its window exactly when the removed record came before
     * it. Decrementing index 0 would underflow, hence the requires.
     */
    method RemoveWindow(w: Window) returns (r: Outcome)
      requires Valid()
      requires IsManaged(w) && focus.Some? && focus.value != IndexOf(Ids(windows), w).value ==> focus.value > 0
      modifies this
      ensures Valid() && screen == old(screen) && !IsManaged(w)
      ensures r == if old(IsManaged(w)) then Ok else Err(UnknownWindow(w))
      ensures r.Err? ==> windows == old(windows) && focus == old(focus)
      ensures r.Ok? ==>
                var i := IndexOf(old(Ids(windows)), w).value;
                windows == RemoveAt(old(windows), i) &&
                focus == match old(focus)
                         case None => None
                         case Some(index) => if index == i then None else Some(index - 1)
      ensures r.Ok? && old(focus).Some? && old(focus).value != IndexOf(old(Ids(windows)), w).value ==>
                (FocusedWindow() == old(FocusedWindow()) <==> IndexOf(old(Ids(windows)), w).value < old(focus).value)
    {
      match IndexOf(Ids(windows), w)
      case None =>
        r := Err(UnknownWindow(w));
      case Some(i) =>
        ghost var ws0 := windows;
        IdsRemoveAt(windows, i);
        DistinctRemoveAt(Ids(windows), i);
        windows := RemoveAt(windows, i);
        match focus {
          case None =>
          case Some(index) =>
            if index == i {
              focus := None;
            } else {
              focus := Some(index - 1);
              if i > index {
                assert windows[index - 1] == ws0[index - 1];
                assert Ids(ws0)[index - 1] != Ids(ws0)[index];
              }
            }
        }
        r := Ok;
    }

    /**
     * `focus_window`: None clears the focus, an unmanaged id is
     * `UnknownWindow`, and otherwise the focus is set to the window's index.
     */
    method FocusWindow(window: Option<Window>) returns (r: Outcome)
      requires Valid()
      modifies this
      ensures Valid() && windows == old(windows) && screen == old(screen)
      ensures window.None? ==> r == Ok && focus == None
      ensures window.Some? && !IsManaged(window.value) ==>
                r == Err(UnknownWindow(window.value)) && focus == old(focus)
      ensures window.Some? && IsManaged(window.value) ==>
                r == Ok && focus == IndexOf(Ids(windows), window.value) && FocusedWindow() == window
    {
      match window
      case None =>
        focus := None;
        r := Ok;
      case Some(gw) =>
        match IndexOf(Ids(windows), gw)
        case None =>
          r := Err(UnknownWindow(gw));
        case Some(i) =>
          focus := Some(i);
          r := Ok;
    }

    /** `cycle_focus`, over Tile and Float records alike: see `CycledFocus`. */
    method CycleFocus(dir: Direction)
      requires Valid()
      modifies this
      ensures Valid() && windows == old(windows) && screen == old(screen)
      ensures focus == CycledFocus(old(focus), |windows|, dir)
    {
      if |windows| > 1 {
        match focus
        case None =>
          focus := Some(0);
        case Some(index) =>
          match dir
          case Prev =>
            if index != 0 {
              focus := Some(index - 1);
            } else {
              focus := Some(|windows| - 1);
            }
          case Next =>
            if index != |windows| - 1 {
              focus := Some(index + 1);
            } else {
              focus := Some(0);
            }
      } else if |windows| == 1 {
        focus := Some(0);
      }
    }

    /**
     * `swap_with_master`: `UnknownWindow` for an unmanaged id; otherwise w
     * trades places with the first record and, now the master, is focused.
     */
    method SwapWithMaster(w: Window) returns (r: Outcome)
      requires Valid()
      modifies this
      ensures Valid() && screen == old(screen)
      ensures r == if old(IsManaged(w)) then Ok else Err(UnknownWindow(w))
      ensures r.Err? ==> windows == old(windows) && focus == old(focus)
      ensures r.Ok? ==>
                windows == Swap(old(windows), 0, IndexOf(old(Ids(windows)), w).value) &&
                focus == Some(0) && MasterWindow() == Some(w) && FocusedWindow() == Some(w)
    {
      match IndexOf(Ids(windows), w)
      case None =>
        r := Err(UnknownWindow(w));
      case Some(i) =>
        IdsSwap(windows, 0, i);
        DistinctSwap(Ids(windows), 0, i);
        windows := Swap(windows, 0, i);
        r := FocusWindow(MasterWindow());
        DistinctIndexOf(Ids(windows), 0);
    }

    /**
     * `swap_windows`: with two or more records and a focus, the focused
     * record trades places with its circular neighbour in direction `dir`
     * (Float or not), and the focus follows it; otherwise nothing changes.
     */
    method SwapWindows(dir: Direction)
      requires Valid()
      modifies this
      ensures Valid() && screen == old(screen)
      ensures |old(windows)| <= 1 || old(focus).None? ==> windows == old(windows) && focus == old(focus)
      ensures |old(windows)| > 1 && old(focus).Some? ==>
                var j := Step(old(focus).value, |old(windows)|, dir);
                windows == Swap(old(windows), old(focus).value, j) && focus == Some(j) &&
                FocusedWindow() == old(FocusedWindow())
    {
      if |windows| > 1 {
        match focus
        case None =>
        case Some(index) =>
          var j := Step(index, |windows|, dir);
          IdsSwap(windows, index, j);
          DistinctSwap(Ids(windows), index, j);
          focus := Some(j);
          windows := Swap(windows, index, j);
      }
    }
  }

  /** Three records 1, 2, 3 added in that order, then 2 focused. */
  method ThreeFocusedSecond(screen: Screen) returns (wm: FloatingWM)
    ensures fresh(wm) && wm.Valid()
    ensures Ids(wm.windows) == [1, 2, 3] && wm.focus == Some(1)
  {
    var g := Geometry(0, 0, 10, 10);
    var a, b, c := Info(1, g, Tile, false), Info(2, g, Float, false), Info(3, g, Tile, false);
    IdsOfInfos(a, b, c);
    wm := new FloatingWM(screen);
    var r := wm.AddWindow(a);
    r := wm.AddWindow(b);
    r := wm.AddWindow(c);
    assert wm.windows == [a, b, c];
    IndexOfMiddle(1, 2, 3);
    r := wm.FocusWindow(Some(2));
  }

  /**
   * Removing a window that comes after the focused one still moves the focus
   * back one place: with 1, 2, 3 and 2 focused, removing 3 leaves 1 focused.
   */
  method RemoveAfterFocusScenario(screen: Screen) returns (focused: Option<Window>, managed: seq<Window>)
    ensures focused == Some(1) && managed == [1, 2]
  {
    var wm := ThreeFocusedSecond(screen);
    DistinctIndexOf(Ids(wm.windows), 2);
    var ws := wm.windows;
    IdsRemoveAt(ws, 2);
    assert RemoveAt(Ids(ws), 2) == [1, 2];
    var r := wm.RemoveWindow(3);
    assert Ids(wm.windows) == [1, 2] && wm.focus == Some(0);
    assert wm.windows[0].window == Ids(wm.windows)[0];
    focused := wm.FocusedWindow();
    managed := wm.GetWindows();
  }
}
