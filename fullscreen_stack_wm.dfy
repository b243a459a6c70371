/**
 * The first manager of the series (`a_fullscreen_wm.rs`): the windows form a
 * stack, the last record is the top, and only the top window is shown,
 * covering the whole screen, and focused.
 */
module FullscreenStackManager {
  import opened Basics
  import opened Sequences
  import opened InfoTiling

  /** `get_focused_window`: the id of the last record, if any. */
  function TopWindow(ws: seq<Info>): Option<Window>
  {
    if ws == [] then None else Some(ws[|ws| - 1].window)
  }

  /**
   * `get_window_layout`: the top window alone, with the screen's geometry, and
   * focused; nothing for an empty stack.
   */
  function StackLayout(ws: seq<Info>, screen: Screen): (l: Layout)
    ensures l.windows == [] <==> ws == []
    ensures |l.windows| <= 1
    ensures l.focusedWindow == TopWindow(ws)
    ensures forall e :: e in l.windows ==> e == (ws[|ws| - 1].window, ScreenGeometry(screen))
  {
    if ws == [] then EmptyLayout
    else
      var top := ws[|ws| - 1];
      Layout(Some(top.window), [(top.window, ScreenGeometry(screen))])
  }

  class FullscreenWM {
    var windows: seq<Info>
    var screen: Screen

    /** Every id is stored once. */
    ghost predicate Valid()
      reads this
    {
      Distinct(Ids(windows))
    }

    predicate IsManaged(w: Window)
      reads this
    {
      w in Ids(windows)
    }

    function FocusedWindow(): Option<Window>
      reads this
    {
      TopWindow(windows)
    }

    function GetWindowLayout(): Layout
      reads this
    {
      StackLayout(windows, screen)
    }

    /** `new`: an empty stack on the given screen. */
    constructor (screen: Screen)
      ensures Valid() && windows == [] && this.screen == screen
    {
      windows := [];
      this.screen := screen;
    }

    /** `get_windows`: the ids, bottom to top. */
    method GetWindows() returns (ids: seq<Window>)
      ensures ids == Ids(windows)
      ensures forall i :: 0 <= i < |windows| ==> ids[i] == windows[i].window
    {
      ids := CollectIds(windows);
    }

    /**
     * `add_window`: an unmanaged window is pushed on top, and so becomes the
     * focused window; a managed one leaves the stack as it was. Always `Ok`.
     */
    method AddWindow(info: Info) returns (r: Outcome)
      requires Valid()
      modifies this
      ensures Valid() && r == Ok && screen == old(screen)
      ensures windows == if old(IsManaged(info.window)) then old(windows) else old(windows) + [info]
      ensures !old(IsManaged(info.window)) ==> FocusedWindow() == Some(info.window)
    {
      if info.window !in Ids(windows) {
        IdsAppend(windows, info);
        DistinctAppend(Ids(windows), info.window);
        windows := windows + [info];
      }
      r := Ok;
    }

    /**
     * `remove_window`: `UnknownWindow` for an unmanaged id; otherwise the
     * record goes and the others keep their order.
     */
    method RemoveWindow(w: Window) returns (r: Outcome)
      requires Valid()
      modifies this
      ensures Valid() && screen == old(screen)
      ensures r == if old(IsManaged(w)) then Ok else Err(UnknownWindow(w))
      ensures r.Err? ==> windows == old(windows)
      ensures r.Ok? ==> windows == RemoveAt(old(windows), IndexOf(old(Ids(windows)), w).value)
      ensures !IsManaged(w)
    {
      match IndexOf(Ids(windows), w)
      case None =>
        r := Err(UnknownWindow(w));
      case Some(i) =>
        IdsRemoveAt(windows, i);
        DistinctRemoveAt(Ids(windows), i);
        windows := RemoveAt(windows, i);
        r := Ok;
    }

    /**
     * `focus_window`: None is an `Ok` no-op; an unmanaged id is
     * `UnknownWindow`; otherwise the record is taken out and pushed back on
     * top, so it is focused and the others keep their order.
     */
    method FocusWindow(window: Option<Window>) returns (r: Outcome)
      requires Valid()
      modifies this
      ensures Valid() && screen == old(screen)
      ensures multiset(windows) == multiset(old(windows))
      ensures window.None? ==> r == Ok && windows == old(windows)
      ensures window.Some? && !old(IsManaged(window.value)) ==>
                r == Err(UnknownWindow(window.value)) && windows == old(windows)
      ensures window.Some? && old(IsManaged(window.value)) ==>
                var i := IndexOf(old(Ids(windows)), window.value).value;
                r == Ok && windows == RemoveAt(old(windows), i) + [old(windows)[i]]
                && FocusedWindow() == window
    {
      match window
      case None =>
        r := Ok;
      case Some(gw) =>
        match IndexOf(Ids(windows), gw)
        case None =>
          r := Err(UnknownWindow(gw));
        case Some(i) =>
          var info := windows[i];
          IdsRemoveAt(windows, i);
          DistinctRemoveAt(Ids(windows), i);
          windows := RemoveAt(windows, i);
          r := AddWindow(info);
    }
  }
}
