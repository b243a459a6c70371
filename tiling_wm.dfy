/**
 * The first tiling manager (`b_tiling_wm.rs`): the first record is the
 * master on the left half, the others share the right half from top to
 * bottom, and the focus is a plain index into the store (`usize`), 0 when
 * nothing has been added.
 */
module TilingManager {
  import opened Basics
  import opened Sequences
  import opened Scans
  import opened InfoTiling

  /**
   * `get_window_layout`: with two or more records, the master/stack loop over
   * all of them, the master being the first record's id, and the record at
   * the index focused; with one record, that record on the whole screen if
   * the index names it; otherwise nothing.
   */
  function TilingLayout(ws: seq<Info>, screen: Screen, index: nat): Layout
    requires |ws| > 1 ==> index < |ws|
  {
    if ws == [] then EmptyLayout
    else if |ws| > 1 then
      Layout(Some(ws[index].window), StackedEntries(ws, ws[0].window, screen, SliceHeight(screen.height, |ws| - 1)))
    else if index < |ws| then
      Layout(Some(ws[index].window), [(ws[index].window, ScreenGeometry(screen))])
    else EmptyLayout
  }

  /**
   * The shape of the layout: two or more distinct records are laid out at
   * their master/stack rectangles in store order with the indexed one
   * focused; a single record fills the screen when the index names it; an
   * empty store or a stale index gives the empty layout.
   */
  lemma TilingLayoutShape(ws: seq<Info>, screen: Screen, index: nat)
    requires Distinct(Ids(ws)) && (|ws| > 1 ==> index < |ws|)
    ensures var l := TilingLayout(ws, screen, index);
      (|ws| >= 2 ==>
         |l.windows| == |ws| && l.focusedWindow == Some(ws[index].window) &&
         forall k :: 0 <= k < |ws| ==> l.windows[k] == (ws[k].window, MasterStack(screen, |ws|, k))) &&
      (|ws| == 1 && index == 0 ==> l == Layout(Some(ws[0].window), [(ws[0].window, ScreenGeometry(screen))])) &&
      (ws == [] || (|ws| == 1 && index != 0) ==> l == EmptyLayout)
  {
    if |ws| >= 2 {
      forall k | 0 <= k < |ws|
        ensures TilingLayout(ws, screen, index).windows[k] == (ws[k].window, MasterStack(screen, |ws|, k))
      {
        StackedIsMasterStack(ws, screen, k);
      }
    }
  }

  class TillingWM {
    var windows: seq<Info>
    var screen: Screen
    var focusIndex: nat

    /** Every id is stored once. The index may go stale; nothing bounds it. */
    ghost predicate Valid()
      reads this
    {
      Distinct(Ids(windows))
    }

    predicate IsManaged(w: Window)
      reads this
    {
      w in Ids(windows)
    }

    /** `get_focused_window`; reading a stale index would panic, hence the requires. */
    function FocusedWindow(): Option<Window>
      requires windows != [] ==> focusIndex < |windows|
      reads this
    {
      if windows != [] then Some(windows[focusIndex].window) else None
    }

    /** `get_master_window`: the first record. */
    function MasterWindow(): Option<Window>
      reads this
    {
      if windows != [] then Some(windows[0].window) else None
    }

    /** `new`: no windows, index 0. */
    constructor (screen: Screen)
      ensures Valid() && windows == [] && this.screen == screen && focusIndex == 0
      ensures FocusedWindow() == None
    {
      windows := [];
      this.screen := screen;
      focusIndex := 0;
    }

    method GetWindows() returns (ids: seq<Window>)
      ensures ids == Ids(windows)
    {
      ids := CollectIds(windows);
    }

    /** The `get_window_layout` loop, read-only. */
    method GetWindowLayout() returns (l: Layout)
      requires |windows| > 1 ==> focusIndex < |windows|
      ensures l == TilingLayout(windows, screen, focusIndex)
    {
      if windows != [] {
        if |windows| > 1 {
          var hh := SliceHeight(screen.height, |windows| - 1);
          var entries := StackLayoutLoop(windows, windows[0].window, screen, hh);
          l := Layout(Some(windows[focusIndex].window), entries);
        } else if focusIndex < |windows| {
          l := Layout(Some(windows[focusIndex].window), [(windows[focusIndex].window, ScreenGeometry(screen))]);
        } else {
          l := EmptyLayout;
        }
      } else {
        l := EmptyLayout;
      }
    }

    /**
     * `add_window`: `ManagedWindow` for a managed id; otherwise the record is
     * appended and the index moves to it.
     */
    method AddWindow(info: Info) returns (r: Outcome)
      requires Valid()
      modifies this
      ensures Valid() && screen == old(screen)
      ensures r == if old(IsManaged(info.window)) then Err(ManagedWindow(info.window)) else Ok
      ensures r.Err? ==> windows == old(windows) && focusIndex == old(focusIndex)
      ensures r.Ok? ==> windows == old(windows) + [info] && focusIndex == |windows| - 1
      ensures r.Ok? ==> FocusedWindow() == Some(info.window)
    {
      if info.window !in Ids(windows) {
        IdsAppend(windows, info);
        DistinctAppend(Ids(windows), info.window);
        windows := windows + [info];
        focusIndex := |windows| - 1;
        r := Ok;
      } else {
        r := Err(ManagedWindow(info.window));
      }
    }

    /**
     * `remove_window`: `UnknownWindow` for an unmanaged id; otherwise the
     * record goes and the index is decremented unless the removed position
     * was 0. Decrementing index 0 would underflow, hence the requires.
     */
    method RemoveWindow(w: Window) returns (r: Outcome)
      requires Valid()
      requires IsManaged(w) && IndexOf(Ids(windows), w).value != 0 ==> focusIndex > 0
      modifies this
      ensures Valid() && screen == old(screen) && !IsManaged(w)
      ensures r == if old(IsManaged(w)) then Ok else Err(UnknownWindow(w))
      ensures r.Err? ==> windows == old(windows) && focusIndex == old(focusIndex)
      ensures r.Ok? ==>
                var i := IndexOf(old(Ids(windows)), w).value;
                windows == RemoveAt(old(windows), i) && focusIndex == IndexAfterRemove(old(focusIndex), i)
    {
      match IndexOf(Ids(windows), w)
      case None =>
        r := Err(UnknownWindow(w));
      case Some(i) =>
        IdsRemoveAt(windows, i);
        DistinctRemoveAt(Ids(windows), i);
        windows := RemoveAt(windows, i);
        if i != 0 {
          focusIndex := focusIndex - 1;
        }
        assert focusIndex == IndexAfterRemove(old(focusIndex), i);
        r := Ok;
    }

    /**
     * `focus_window`: None is an `Ok` no-op, an unmanaged id is
     * `UnknownWindow`, and otherwise the index is set to the window's.
     */
    method FocusWindow(window: Option<Window>) returns (r: Outcome)
      requires Valid()
      modifies this
      ensures Valid() && windows == old(windows) && screen == old(screen)
      ensures window.None? ==> r == Ok && focusIndex == old(focusIndex)
      ensures window.Some? && !IsManaged(window.value) ==>
                r == Err(UnknownWindow(window.value)) && focusIndex == old(focusIndex)
      ensures window.Some? && IsManaged(window.value) ==>
                r == Ok && focusIndex == IndexOf(Ids(windows), window.value).value &&
                FocusedWindow() == window
    {
      match window
      case None =>
        r := Ok;
      case Some(gw) =>
        match IndexOf(Ids(windows), gw)
        case None =>
          r := Err(UnknownWindow(gw));
        case Some(i) =>
          focusIndex := i;
          r := Ok;
    }

    /** `cycle_focus`: with two or more records the index moves circularly; otherwise nothing. */
    method CycleFocus(dir: Direction)
      requires Valid()
      modifies this
      ensures Valid() && windows == old(windows) && screen == old(screen)
      ensures focusIndex == if |windows| > 1 then Step(old(focusIndex), |windows|, dir) else old(focusIndex)
      ensures |windows| > 1 && old(focusIndex) < |windows| ==> focusIndex < |windows|
    {
      if |windows| > 1 {
        match dir
        case Prev =>
          if focusIndex != 0 {
            focusIndex := focusIndex - 1;
          } else {
            focusIndex := |windows| - 1;
          }
        case Next =>
          if focusIndex != |windows| - 1 {
            focusIndex := focusIndex + 1;
          } else {
            focusIndex := 0;
          }
      }
    }

    /**
     * `swap_with_master`: `UnknownWindow` for an unmanaged id; otherwise w
     * trades places with the first record and the index moves to 0, so w is
     * both the master and focused.
     */
    method SwapWithMaster(w: Window) returns (r: Outcome)
      requires Valid()
      modifies this
      ensures Valid() && screen == old(screen)
      ensures r == if old(IsManaged(w)) then Ok else Err(UnknownWindow(w))
      ensures r.Err? ==> windows == old(windows) && focusIndex == old(focusIndex)
      ensures r.Ok? ==>
                windows == Swap(old(windows), 0, IndexOf(old(Ids(windows)), w).value) &&
                focusIndex == 0 && MasterWindow() == Some(w) && FocusedWindow() == Some(w)
    {
      match IndexOf(Ids(windows), w)
      case None =>
        r := Err(UnknownWindow(w));
      case Some(i) =>
        IdsSwap(windows, 0, i);
        DistinctSwap(Ids(windows), 0, i);
        windows := Swap(windows, 0, i);
        r := FocusWindow(MasterWindow());
        DistinctIndexOf(Ids(windows), 0);
    }
  }

  /**
   * The index after `remove_window` removed position `i`: decremented
   * whenever the removed position is not 0, wherever the focus was.
   */
  function IndexAfterRemove(index: nat, i: nat): (j: nat)
    requires i != 0 ==> index > 0
    ensures i == 0 ==> j == index
    ensures i != 0 ==> j + 1 == index
  {
    if i != 0 then index - 1 else index
  }

  /**
   * The index still names the focused window after removing another one
   * exactly when the removed position lies strictly between the master and
   * the focus: removing the master leaves the index pointing one window
   * further on (or past the end), and removing a window after the focus
   * moves the focus back by one.
   */
  lemma RemovalFocusDrift(ws: seq<Info>, index: nat, i: nat)
    requires Distinct(Ids(ws)) && index < |ws| && i < |ws| && i != index && (i != 0 ==> index > 0)
    ensures var j := IndexAfterRemove(index, i);
      (j < |ws| - 1 && RemoveAt(ws, i)[j].window == ws[index].window) <==> 0 < i < index
  {
    var j := IndexAfterRemove(index, i);
    if i == 0 && j < |ws| - 1 {
      assert RemoveAt(ws, i)[j] == ws[index + 1];
      assert Ids(ws)[index + 1] != Ids(ws)[index];
    } else if i > index {
      assert RemoveAt(ws, i)[j] == ws[index - 1];
      assert Ids(ws)[index - 1] != Ids(ws)[index];
    }
  }

  /**
   * Removing the master leaves the index alone, so with windows 1 and 2 and
   * 2 focused, removing 1 leaves index 1 behind a single record: the layout
   * is then empty although window 2 is still managed.
   */
  method StaleIndexScenario(screen: Screen) returns (l: Layout, managed: seq<Window>)
    ensures l == EmptyLayout && managed == [2]
  {
    var wm := new TillingWM(screen);
    var r := wm.AddWindow(Info(1, Geometry(0, 0, 10, 10), Tile, false));
    r := wm.AddWindow(Info(2, Geometry(0, 0, 10, 10), Tile, false));
    DistinctIndexOf(Ids(wm.windows), 0);
    r := wm.RemoveWindow(1);
    l := wm.GetWindowLayout();
    managed := wm.GetWindows();
  }
}
