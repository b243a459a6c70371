/**
 * The draft fullscreen manager (`e_fullscreen_windows_w.rs`): the minimising
 * manager with a fullscreen flag on every record. A fullscreen record takes
 * the screen, is the only window the layout shows, and sits out of the
 * master/stack loop; most operations clear every fullscreen flag first.
 * Records are still appended at the tail whatever their mode, and the
 * master is still the first Tile record.
 */
module DraftFullscreenManager {
  import opened Basics
  import opened Sequences
  import opened Scans
  import opened Records
  import Min = MinimisingManager

  /**
   * The slice count of `calculate_tiled_geometries`: the records beyond the
   * Float records, the minimised Tile records, one more, and one more again
   * when some record is fullscreen; 0 when there are none beyond them.
   */
  function DraftDivisor(ws: seq<Record>): nat
  {
    var nonTiled := Count(Where(ws, IsFloat)) + Count(Where(ws, IsMinimisedTile)) + 1 +
                    (if HasFullscreen(ws) then 1 else 0);
    if |ws| > nonTiled then |ws| - nonTiled else 0
  }

  /**
   * In terms of the N shown Tile records: N - 1 slices without a
   * fullscreen record and N - 2 with one, or none when that is not positive.
   */
  lemma DraftDivisorCounts(ws: seq<Record>)
    ensures var n := Count(Where(ws, IsTiled));
      var f := if HasFullscreen(ws) then 1 else 0;
      DraftDivisor(ws) == if n >= 2 + f then n - 1 - f else 0
  {
    CountByKind(ws, |ws|);
    assert Where(ws, IsFloat)[..|ws|] == Where(ws, IsFloat);
    assert Where(ws, IsMinimisedTile)[..|ws|] == Where(ws, IsMinimisedTile);
    assert Where(ws, IsTiled)[..|ws|] == Where(ws, IsTiled);
  }

  /**
   * What `calculate_tiled_geometries` leaves in the store: the fullscreen
   * records get the screen; then, with a positive slice count, the stacking
   * loop runs over the shown Tile records that are not fullscreen with the
   * first Tile record's id as master, and otherwise the first Tile record
   * gets the screen.
   */
  function DraftRetiled(ws: seq<Record>, screen: Screen): (r: seq<Record>)
    ensures |r| == |ws| && Ids(r) == Ids(ws)
    ensures forall k :: 0 <= k < |ws| ==> r[k] == ws[k].(geometry := r[k].geometry)
  {
    if ws == [] then ws
    else
      var s := ScreenFullscreen(ws, screen);
      assert Ids(s) == Ids(ws);
      Retile(s, IsStacked, FirstWhere(s, IsTile), DraftDivisor(s), screen)
  }

  /** Without a fullscreen record the draft retiles exactly as the minimising manager. */
  lemma DraftRetiledAsMinimising(ws: seq<Record>, screen: Screen)
    requires !HasFullscreen(ws)
    ensures DraftRetiled(ws, screen) == Min.Retiled(ws, screen)
  {
    if ws != [] {
      ScreenFullscreenNone(ws, screen);
      RetileSamePart(ws, IsStacked, IsTiled, FirstWhere(ws, IsTile), Min.Divisor(ws), screen);
    }
  }

  /** A fullscreen record ends up with the screen's geometry, and a Float record that is not fullscreen keeps its own. */
  lemma DraftRetiledAt(ws: seq<Record>, screen: Screen, k: nat)
    requires k < |ws|
    ensures ws[k].fullscreen ==> DraftRetiled(ws, screen)[k].geometry == ScreenGeometry(screen)
    ensures ws[k].mode == Float && !ws[k].fullscreen ==> DraftRetiled(ws, screen)[k] == ws[k]
  {
    var s := ScreenFullscreen(ws, screen);
    var m := FirstWhere(s, IsTile);
    assert DraftRetiled(ws, screen) == Retile(s, IsStacked, m, DraftDivisor(s), screen);
    if ws[k].fullscreen || ws[k].mode == Float {
      if m == Some(k) && DraftDivisor(s) == 0 {
        RetileSingle(s, IsStacked, k, screen);
      } else if m != Some(k) {
        RetileKeepsOthers(s, IsStacked, m, DraftDivisor(s), screen, k);
      }
    }
  }

  /**
   * `get_window_layout`: nothing for an empty store; the last fullscreen
   * record alone, focused, when there is one; otherwise the minimising
   * manager's layout (shown Tile records, then shown Float records).
   */
  function DraftLayout(ws: seq<Record>, focus: Option<nat>): Layout
    requires focus.Some? ==> focus.value < |ws|
  {
    if ws == [] then EmptyLayout
    else
      match LastFullscreen(ws)
      case Some(f) => Layout(Some(f.window), [(f.window, f.geometry)])
      case None => Min.MinimisingLayout(ws, focus)
  }

  /**
   * With at most one fullscreen record, the layout is that record alone and
   * focused whatever the focus index says; without one, it is the
   * minimising manager's layout.
   */
  lemma DraftLayoutShape(ws: seq<Record>, focus: Option<nat>)
    requires AtMostOneFullscreen(ws) && (focus.Some? ==> focus.value < |ws|)
    ensures forall k :: 0 <= k < |ws| && ws[k].fullscreen ==>
              DraftLayout(ws, focus) == Layout(Some(ws[k].window), [(ws[k].window, ws[k].geometry)])
    ensures !HasFullscreen(ws) ==> DraftLayout(ws, focus) == Min.MinimisingLayout(ws, focus)
  {
    forall k | 0 <= k < |ws| && ws[k].fullscreen
      ensures DraftLayout(ws, focus) == Layout(Some(ws[k].window), [(ws[k].window, ws[k].geometry)])
    {
      LastFullscreenUnique(ws, k);
    }
  }

  /**
   * The store after `toggle_minimised(w)`: every fullscreen flag cleared
   * (for an unmanaged id too); then, as in the minimising manager, w's
   * record unminimised when w is in the ledger and minimised otherwise,
   * and the store retiled. The ledger becomes `Min.ToggledLedger`.
   */
  function DraftToggledStore(ws: seq<Record>, ledger: seq<Window>, w: Window, screen: Screen): (r: seq<Record>)
    ensures |r| == |ws| && Ids(r) == Ids(ws) && !HasFullscreen(r)
    ensures forall k :: 0 <= k < |ws| ==> r[k].mode == ws[k].mode
  {
    var c := NoFullscreen(ws);
    NoFullscreenClears(ws);
    match IndexOf(Ids(ws), w)
    case None => c
    case Some(i) =>
      var u := c[i := c[i].(minimised := w !in ledger)];
      IdsUpdate(c, i, u[i]);
      assert !HasFullscreen(u);
      GeometryOnly(u, DraftRetiled(u, screen), ledger);
      DraftRetiled(u, screen)
  }

  /**
   * From an agreeing state, `toggle_minimised(w)` flips w's flag in step
   * with the ledger and leaves every other flag alone; the ledger still
   * agrees.
   */
  lemma DraftToggleKeepsLedger(ws: seq<Record>, ledger: seq<Window>, w: Window, screen: Screen)
    requires Distinct(Ids(ws)) && LedgerAgrees(ws, ledger) && w in Ids(ws)
    ensures var r := DraftToggledStore(ws, ledger, w, screen);
      var l := Min.ToggledLedger(ws, ledger, w);
      var i := IndexOf(Ids(ws), w).value;
      LedgerAgrees(r, l) &&
      r[i].minimised == (w in l) && r[i].minimised == !ws[i].minimised &&
      forall k :: 0 <= k < |ws| && k != i ==> r[k].minimised == ws[k].minimised
  {
    var i := IndexOf(Ids(ws), w).value;
    var c := NoFullscreen(ws);
    var u := c[i := c[i].(minimised := w !in ledger)];
    var l := Min.ToggledLedger(ws, ledger, w);
    NoFullscreenClears(ws);
    IdsUpdate(c, i, u[i]);
    UnlistedRemoves(ledger, w);
    if w !in ledger {
      DistinctAppend(ledger, w);
    }
    forall k | 0 <= k < |ws|
      ensures u[k].minimised <==> u[k].window in l
    {
      if k != i {
        assert Ids(ws)[k] != Ids(ws)[i];
      }
    }
    assert LedgerAgrees(u, l);
    GeometryOnly(u, DraftRetiled(u, screen), l);
  }

  /**
   * The store after `focus_window(Some(w))` on a managed w: every
   * fullscreen flag cleared, w's record toggled back when minimised, then a
   * retiling. The ledger becomes `Min.RevealedLedger`.
   */
  function DraftFocusedStore(ws: seq<Record>, ledger: seq<Window>, w: Window, screen: Screen): (r: seq<Record>)
    requires w in Ids(ws)
    ensures |r| == |ws| && Ids(r) == Ids(ws) && !HasFullscreen(r)
    ensures forall k :: 0 <= k < |ws| ==> r[k].mode == ws[k].mode
  {
    var c := NoFullscreen(ws);
    NoFullscreenClears(ws);
    var i := IndexOf(Ids(ws), w).value;
    var t := if c[i].minimised then DraftToggledStore(c, ledger, w, screen) else c;
    GeometryOnly(t, DraftRetiled(t, screen), ledger);
    DraftRetiled(t, screen)
  }

  /** From an agreeing state, the focused window is shown afterwards and out of the ledger, which still agrees. */
  lemma DraftFocusShows(ws: seq<Record>, ledger: seq<Window>, w: Window, screen: Screen)
    requires Distinct(Ids(ws)) && LedgerAgrees(ws, ledger) && w in Ids(ws)
    ensures var r, l := DraftFocusedStore(ws, ledger, w, screen), Min.RevealedLedger(ws, ledger, w);
      LedgerAgrees(r, l) && !r[IndexOf(Ids(ws), w).value].minimised && w !in l
  {
    var i := IndexOf(Ids(ws), w).value;
    var c := NoFullscreen(ws);
    NoFullscreenClears(ws);
    NoFullscreenKeepsLedger(ws, ledger);
    var l := Min.RevealedLedger(ws, ledger, w);
    var t := if c[i].minimised then DraftToggledStore(c, ledger, w, screen) else c;
    if c[i].minimised {
      DraftToggleKeepsLedger(c, ledger, w, screen);
      assert Min.ToggledLedger(c, ledger, w) == l;
    }
    assert LedgerAgrees(t, l) && !t[i].minimised;
    GeometryOnly(t, DraftRetiled(t, screen), l);
  }

  /** Clearing the fullscreen flags does not change what focusing does to the ledger. */
  lemma RevealedLedgerCleared(ws: seq<Record>, ledger: seq<Window>, w: Window)
    requires w in Ids(ws)
    ensures Min.RevealedLedger(NoFullscreen(ws), ledger, w) == Min.RevealedLedger(ws, ledger, w)
  {
    var i := IndexOf(Ids(ws), w).value;
    assert NoFullscreen(ws)[i].minimised == ws[i].minimised;
  }

  /** The store after `remove_window(w)`: as in the minimising manager, with the draft's retiling. */
  function DraftRemovedStore(ws: seq<Record>, ledger: seq<Window>, w: Window, screen: Screen): (r: seq<Record>)
    requires w in Ids(ws) && Min.RemovalIsSafe(ws, ledger, w)
    ensures Ids(r) == RemoveAt(Ids(ws), IndexOf(Ids(ws), w).value)
  {
    var i := IndexOf(Ids(ws), w).value;
    IdsRemoveAt(ws, i);
    var rest := RemoveAt(ws, i);
    var purged := if ws[i].minimised then Min.PurgedStore(rest, ledger, w) else rest;
    if ws[i].mode == Tile then DraftRetiled(purged, screen) else purged
  }

  /**
   * Without a fullscreen record, removal does exactly what the minimising
   * manager does, so its stale-ledger defect (`Min.StaleLedgerAfterRemove`)
   * is here too.
   */
  lemma DraftRemoveAsMinimising(ws: seq<Record>, ledger: seq<Window>, w: Window, screen: Screen)
    requires w in Ids(ws) && Min.RemovalIsSafe(ws, ledger, w) && !HasFullscreen(ws)
    ensures DraftRemovedStore(ws, ledger, w, screen) == Min.RemovedStore(ws, ledger, w, screen)
  {
    var i := IndexOf(Ids(ws), w).value;
    var rest := RemoveAt(ws, i);
    var purged := if ws[i].minimised then Min.PurgedStore(rest, ledger, w) else rest;
    if ws[i].mode == Tile {
      assert forall k :: 0 <= k < |purged| ==> !purged[k].fullscreen by {
        forall k | 0 <= k < |purged|
          ensures !purged[k].fullscreen
        {
          assert rest[k].fullscreen == (if k < i then ws[k] else ws[k + 1]).fullscreen;
        }
      }
      DraftRetiledAsMinimising(purged, screen);
    }
  }

  /** The store after `toggle_floating` on the record at `i`: fullscreen flags cleared, the record flipped in place, a retiling. */
  function DraftFlippedStore(ws: seq<Record>, i: nat, screen: Screen): (r: seq<Record>)
    requires i < |ws|
    ensures |r| == |ws| && Ids(r) == Ids(ws) && !HasFullscreen(r)
  {
    var c := NoFullscreen(ws);
    NoFullscreenClears(ws);
    IdsUpdate(c, i, Flipped(c[i]));
    var u := c[i := Flipped(c[i])];
    assert !HasFullscreen(u);
    GeometryOnly(u, DraftRetiled(u, screen), []);
    DraftRetiled(u, screen)
  }

  /**
   * `toggle_floating` twice on the same record restores every record's
   * mode, minimised flag and saved geometry; only geometries and the
   * fullscreen flags may differ.
   */
  lemma DraftFlipTwice(ws: seq<Record>, i: nat, screen: Screen)
    requires i < |ws|
    ensures var r := DraftFlippedStore(DraftFlippedStore(ws, i, screen), i, screen);
      forall k :: 0 <= k < |ws| ==>
        r[k].mode == ws[k].mode && r[k].minimised == ws[k].minimised && r[k].savedGeometry == ws[k].savedGeometry
  {
    var r1 := DraftFlippedStore(ws, i, screen);
    var r := DraftFlippedStore(r1, i, screen);
    forall k | 0 <= k < |ws|
      ensures r[k].mode == ws[k].mode && r[k].minimised == ws[k].minimised && r[k].savedGeometry == ws[k].savedGeometry
    {
      var c := NoFullscreen(ws);
      assert r1[k].mode == c[i := Flipped(c[i])][k].mode;
      var c1 := NoFullscreen(r1);
      assert r[k].mode == c1[i := Flipped(c1[i])][k].mode;
      FlippedTwice(ws[i]);
    }
  }

  /**
   * The store after `toggle_fullscreen(w)`: with no fullscreen record, w's
   * flag is set; when w itself is fullscreen, every flag is cleared; when
   * another window is, the flags are cleared, w is focused (see
   * `DraftFocusedStore`) and its flag set. A retiling follows. Focusing an
   * unmanaged w would panic on `unwrap`, hence the requires.
   */
  function DraftFullscreenToggled(ws: seq<Record>, ledger: seq<Window>, w: Window, screen: Screen): (r: seq<Record>)
    requires LastFullscreen(ws).Some? && LastFullscreen(ws).value.window != w ==> w in Ids(ws)
    ensures |r| == |ws| && Ids(r) == Ids(ws)
  {
    NoFullscreenClears(ws);
    var marked :=
      match LastFullscreen(ws)
      case None => WithFullscreen(ws, w, true)
      case Some(f) =>
        if f.window == w then NoFullscreen(ws)
        else WithFullscreen(DraftFocusedStore(NoFullscreen(ws), ledger, w, screen), w, true);
    assert Ids(marked) == Ids(ws);
    DraftRetiled(marked, screen)
  }

  /**
   * Turning fullscreen on: when no window or another window is fullscreen,
   * afterwards w's record is the only fullscreen one, it has the screen's
   * geometry, and the layout shows w alone; turning it off for the
   * fullscreen w leaves no fullscreen record.
   */
  lemma DraftFullscreenTakesOver(ws: seq<Record>, ledger: seq<Window>, w: Window, focus: Option<nat>, screen: Screen)
    requires Distinct(Ids(ws)) && AtMostOneFullscreen(ws) && w in Ids(ws) && (focus.Some? ==> focus.value < |ws|)
    ensures var r := DraftFullscreenToggled(ws, ledger, w, screen);
      var i := IndexOf(Ids(ws), w).value;
      (LastFullscreen(ws).None? || LastFullscreen(ws).value.window != w ==>
         AtMostOneFullscreen(r) && r[i].fullscreen && r[i].geometry == ScreenGeometry(screen) &&
         DraftLayout(r, focus) == Layout(Some(w), [(w, ScreenGeometry(screen))])) &&
      (LastFullscreen(ws).Some? && LastFullscreen(ws).value.window == w ==> !HasFullscreen(r))
  {
    var r := DraftFullscreenToggled(ws, ledger, w, screen);
    var i := IndexOf(Ids(ws), w).value;
    NoFullscreenClears(ws);
    var marked :=
      match LastFullscreen(ws)
      case None => WithFullscreen(ws, w, true)
      case Some(f) =>
        if f.window == w then NoFullscreen(ws)
        else WithFullscreen(DraftFocusedStore(NoFullscreen(ws), ledger, w, screen), w, true);
    assert r == DraftRetiled(marked, screen);
    GeometryOnly(marked, r, ledger);
    if LastFullscreen(ws).None? || LastFullscreen(ws).value.window != w {
      if LastFullscreen(ws).None? {
        WithFullscreenOnly(ws, w);
      } else {
        var fs := DraftFocusedStore(NoFullscreen(ws), ledger, w, screen);
        WithFullscreenOnly(fs, w);
      }
      assert Ids(marked)[i] == w;
      assert marked[i].fullscreen;
      DraftRetiledAt(marked, screen, i);
      assert Ids(r)[i] == w;
      GeometryOnly(marked, r, ledger);
      DraftLayoutShape(r, focus);
    }
  }


  /**
   * `toggle_fullscreen` with no fullscreen window does not move the focus:
   * afterwards w is the fullscreen window while the focus still names what
   * it named before, so "the fullscreen window is the focused one" fails
   * whenever w was not focused.
   */
  lemma DraftFullscreenUnfocused(ws: seq<Record>, ledger: seq<Window>, w: Window, focus: Option<nat>, screen: Screen)
    requires Distinct(Ids(ws)) && !HasFullscreen(ws) && w in Ids(ws) && (focus.Some? ==> focus.value < |ws|)
    requires FocusedOf(ws, focus) != Some(w)
    ensures var r := DraftFullscreenToggled(ws, ledger, w, screen);
      LastFullscreen(r).Some? && LastFullscreen(r).value.window == w && FocusedOf(r, focus) != Some(w)
  {
    var i := IndexOf(Ids(ws), w).value;
    var marked := WithFullscreen(ws, w, true);
    var r := DraftFullscreenToggled(ws, ledger, w, screen);
    WithFullscreenOnly(ws, w);
    assert r == DraftRetiled(marked, screen);
    GeometryOnly(marked, r, ledger);
    assert Ids(r)[i] == w && r[i].fullscreen;
    LastFullscreenUnique(r, i);
  }

  /**
   * Toggling fullscreen twice does not put a Float window back: a Float w
   * made fullscreen takes the screen's geometry, and when the flag is
   * cleared nothing restores its old place, so it floats over the whole
   * screen.
   */
  lemma DraftFullscreenTwiceFloat(ws: seq<Record>, ledger: seq<Window>, w: Window, screen: Screen)
    requires Distinct(Ids(ws)) && !HasFullscreen(ws) && w in Ids(ws) && ws[IndexOf(Ids(ws), w).value].mode == Float
    ensures var r1 := DraftFullscreenToggled(ws, ledger, w, screen);
      var r2 := DraftFullscreenToggled(r1, ledger, w, screen);
      var i := IndexOf(Ids(ws), w).value;
      !HasFullscreen(r2) && r2[i].window == w && r2[i].mode == Float && r2[i].geometry == ScreenGeometry(screen)
  {
    var i := IndexOf(Ids(ws), w).value;
    var marked := WithFullscreen(ws, w, true);
    var r1 := DraftFullscreenToggled(ws, ledger, w, screen);
    WithFullscreenOnly(ws, w);
    assert r1 == DraftRetiled(marked, screen);
    assert Ids(marked)[i] == w;
    DraftRetiledAt(marked, screen, i);
    GeometryOnly(marked, r1, ledger);
    assert Ids(r1)[i] == w && r1[i].fullscreen;
    LastFullscreenUnique(r1, i);
    var n := NoFullscreen(r1);
    NoFullscreenClears(r1);
    var r2 := DraftFullscreenToggled(r1, ledger, w, screen);
    assert r2 == DraftRetiled(n, screen);
    DraftRetiledAt(n, screen, i);
    GeometryOnly(n, r2, ledger);
  }

  /** Two records trade places and the store is retiled (`swap_with_master`, `swap_windows`). */
  function DraftSwappedStore(ws: seq<Record>, i: nat, j: nat, screen: Screen): (r: seq<Record>)
    requires i < |ws| && j < |ws|
    ensures |r| == |ws| && Ids(r) == Swap(Ids(ws), i, j)
    ensures r[i].window == ws[j].window && r[j].window == ws[i].window
    ensures forall k :: 0 <= k < |ws| ==> r[k] == Swap(ws, i, j)[k].(geometry := r[k].geometry)
  {
    IdsSwap(ws, i, j);
    DraftRetiled(Swap(ws, i, j), screen)
  }

  /**
   * `swap_with_master` on a Tile record makes it the master: after the swap
   * with the first Tile record, the retiling and the focusing, the first
   * Tile record is the one moved there.
   */
  lemma DraftSwapMakesMaster(ws: seq<Record>, ledger: seq<Window>, mi: nat, wi: nat, w: Window, screen: Screen)
    requires FirstWhere(ws, IsTile) == Some(mi) && wi < |ws| && ws[wi].mode == Tile && ws[wi].window == w
    ensures var s := DraftSwappedStore(ws, mi, wi, screen);
      w in Ids(s) &&
      var f := DraftFocusedStore(s, ledger, w, screen);
      FirstWhere(f, IsTile) == Some(mi) && f[mi].window == w
  {
    var s := DraftSwappedStore(ws, mi, wi, screen);
    assert Ids(s)[mi] == ws[wi].window;
    var f := DraftFocusedStore(s, ledger, w, screen);
    assert Ids(f)[mi] == Ids(s)[mi];
    forall k | 0 <= k < |ws|
      ensures IsTile(f[k]) == IsTile(Swap(ws, mi, wi)[k])
    {
      assert f[k].mode == s[k].mode;
    }
    SwapKeepsFirst(ws, IsTile, mi, wi, f);
  }

  /**
   * The store after `add_window(info)` on a new id: every fullscreen flag
   * cleared, the record appended (fullscreen when the client asks), and a
   * retiling.
   */
  function DraftAddedStore(ws: seq<Record>, info: Info, screen: Screen): (r: seq<Record>)
    ensures |r| == |ws| + 1 && Ids(r) == Ids(ws) + [info.window]
    ensures forall k :: 0 <= k < |ws| ==>
              r[k].mode == ws[k].mode && r[k].minimised == ws[k].minimised && !r[k].fullscreen
    ensures r[|ws|].mode == info.mode && r[|ws|].fullscreen == info.fullscreen && !r[|ws|].minimised
  {
    NoFullscreenClears(ws);
    IdsAppend(NoFullscreen(ws), FromInfo(info));
    DraftRetiled(NoFullscreen(ws) + [FromInfo(info)], screen)
  }

  /**
   * After `add_window` at most one record is fullscreen, and a window added
   * as fullscreen is the only one the layout shows, at the screen's size.
   */
  lemma DraftAddKeepsOne(ws: seq<Record>, info: Info, focus: Option<nat>, screen: Screen)
    requires focus.Some? ==> focus.value <= |ws|
    ensures var r := DraftAddedStore(ws, info, screen);
      AtMostOneFullscreen(r) &&
      (info.fullscreen ==> DraftLayout(r, focus) == Layout(Some(info.window), [(info.window, ScreenGeometry(screen))]))
  {
    var r := DraftAddedStore(ws, info, screen);
    NoFullscreenClears(ws);
    var a := NoFullscreen(ws) + [FromInfo(info)];
    IdsAppend(NoFullscreen(ws), FromInfo(info));
    assert r == DraftRetiled(a, screen);
    assert Ids(r)[|ws|] == info.window;
    if info.fullscreen {
      DraftRetiledAt(a, screen, |ws|);
      DraftLayoutShape(r, focus);
    }
  }

  /**
   * `cycle_focus` toggles the minimised state of the window it lands on and
   * leaves no fullscreen record: from an agreeing state, a shown window that
   * receives the focus ends up minimised and in the ledger.
   */
  lemma DraftCycleTogglesFocused(ws: seq<Record>, ledger: seq<Window>, focus: Option<nat>, dir: Direction, screen: Screen)
    requires Distinct(Ids(ws)) && LedgerAgrees(ws, ledger) && ws != [] && (focus.Some? ==> focus.value < |ws|)
    ensures var f := CycledFocus(focus, |ws|, dir).value;
      var r := DraftToggledStore(ws, ledger, ws[f].window, screen);
      var l := Min.ToggledLedger(ws, ledger, ws[f].window);
      r[f].minimised == !ws[f].minimised && (ws[f].window in l <==> !ws[f].minimised) &&
      LedgerAgrees(r, l) && !HasFullscreen(r)
  {
    var f := CycledFocus(focus, |ws|, dir).value;
    DistinctIndexOf(Ids(ws), f);
    DraftToggleKeepsLedger(ws, ledger, ws[f].window, screen);
  }

  /** A rewrite that keeps every fullscreen flag keeps "at most one fullscreen record". */
  lemma SameFullscreenFlags(ws: seq<Record>, r: seq<Record>)
    requires |r| == |ws| && forall k :: 0 <= k < |ws| ==> r[k].fullscreen == ws[k].fullscreen
    ensures AtMostOneFullscreen(r) <==> AtMostOneFullscreen(ws)
  {
  }

  /**
   * The body of `calculate_tiled_geometries` over the store's value: the
   * fullscreen loop, the counts, then the stacking loop or the screen for
   * the first Tile record.
   */
  method DraftRetileStore(ws: seq<Record>, screen: Screen) returns (out: seq<Record>)
    ensures out == DraftRetiled(ws, screen)
  {
    out := ws;
    if ws != [] {
      var fullscreen;
      out, fullscreen := ScreenFullscreenLoop(ws, screen);
      ghost var s := out;
      assert HasFullscreen(s) == HasFullscreen(ws) by {
        assert forall k :: 0 <= k < |ws| ==> s[k].fullscreen == ws[k].fullscreen;
      }
      var floating := CollectIdsWhere(out, IsFloat);
      var minimisedTiled := CollectIdsWhere(out, IsMinimisedTile);
      var nonTiled := |floating| + |minimisedTiled| + 1 + (if fullscreen then 1 else 0);
      var total := |out|;
      if total > nonTiled {
        var divisor := total - nonTiled;
        assert divisor == DraftDivisor(s);
        DraftDivisorCounts(s);
        CountPositive(Where(s, IsTiled));
        ghost var k :| 0 <= k < |s| && Where(s, IsTiled)[k];
        assert Where(s, IsTile)[k];
        var m := FirstWhere(out, IsTile).value;
        var hh := SliceHeight(screen.height, divisor);
        out := RestackLoop(out, IsStacked, out[m].window, screen, hh);
      } else {
        match FirstWhere(out, IsTile) {
          case None =>
          case Some(i) =>
            out := out[i := out[i].(geometry := ScreenGeometry(screen))];
        }
      }
    }
  }

  class FullscreenDraftWM {
    var windows: seq<Record>
    /** `minimised_windows`: the minimised ids in the order they were minimised. */
    var minimisedWindows: seq<Window>
    var screen: Screen
    var focus: Option<nat>

    /** Every id is stored once, the focus names a record, and at most one record is fullscreen. */
    ghost predicate Valid()
      reads this
    {
      Distinct(Ids(windows)) && (focus.Some? ==> focus.value < |windows|) && AtMostOneFullscreen(windows)
    }

    predicate IsManaged(w: Window)
      reads this
    {
      w in Ids(windows)
    }

    /** `is_minimised`: whether w is in the ledger. */
    predicate IsMinimised(w: Window)
      reads this
    {
      w in minimisedWindows
    }

    function FocusedWindow(): Option<Window>
      requires Valid()
      reads this
    {
      FocusedOf(windows, focus)
    }

    /** `get_master_window`: the first Tile record, minimised or fullscreen or not. */
    function MasterWindow(): Option<Window>
      reads this
    {
      match FirstWhere(windows, IsTile)
      case None => None
      case Some(i) => Some(windows[i].window)
    }

    constructor (screen: Screen)
      ensures Valid() && LedgerAgrees(windows, minimisedWindows)
      ensures windows == [] && minimisedWindows == [] && this.screen == screen && focus == None
    {
      windows := [];
      minimisedWindows := [];
      this.screen := screen;
      focus := None;
    }

    method GetWindows() returns (ids: seq<Window>)
      ensures ids == Ids(windows)
    {
      ids := CollectIds(windows);
    }

    /** `get_floating_windows`: every Float record, minimised or not. */
    method GetFloatingWindows() returns (ids: seq<Window>)
      ensures ids == IdsWhere(windows, IsFloat)
    {
      ids := CollectIdsWhere(windows, IsFloat);
    }

    method GetMinimisedWindows() returns (ids: seq<Window>)
      ensures ids == minimisedWindows
    {
      ids := minimisedWindows;
    }

    /** `get_fullscreen_window`: the id of the last fullscreen record. */
    method GetFullscreenWindow() returns (r: Option<Window>)
      ensures r.Some? <==> HasFullscreen(windows)
      ensures r.Some? ==> r.value == LastFullscreen(windows).value.window && r.value in Ids(windows)
    {
      var full := FindFullscreen(windows);
      match full
      case None =>
        r := None;
      case Some(f) =>
        var k :| 0 <= k < |windows| && windows[k] == f;
        assert Ids(windows)[k] == f.window;
        r := Some(f.window);
    }

    method GetWindowLayout() returns (l: Layout)
      requires Valid()
      ensures l == DraftLayout(windows, focus)
    {
      if windows != [] {
        var full := FindFullscreen(windows);
        match full
        case Some(f) =>
          l := Layout(Some(f.window), [(f.window, f.geometry)]);
        case None =>
          var tiled := CollectEntries(windows, IsTiled);
          var floating := CollectEntries(windows, IsShownFloat);
          var focused := match focus case None => None case Some(index) => Some(windows[index].window);
          l := Layout(focused, tiled + floating);
      } else {
        l := EmptyLayout;
      }
    }

    /** `calculate_tiled_geometries`: the store becomes `DraftRetiled`; only geometries change. */
    method CalculateTiledGeometries()
      requires Distinct(Ids(windows))
      modifies this
      ensures Distinct(Ids(windows)) && windows == DraftRetiled(old(windows), screen)
      ensures minimisedWindows == old(minimisedWindows) && screen == old(screen) && focus == old(focus)
      ensures AtMostOneFullscreen(old(windows)) ==> AtMostOneFullscreen(windows)
      ensures LedgerAgrees(old(windows), minimisedWindows) ==> LedgerAgrees(windows, minimisedWindows)
    {
      ghost var before := windows;
      windows := DraftRetileStore(windows, screen);
      GeometryOnly(before, windows, minimisedWindows);
    }

    /** `remove_fullscreen_window`: every fullscreen flag cleared. */
    method RemoveFullscreenWindow()
      requires Distinct(Ids(windows))
      modifies this
      ensures windows == NoFullscreen(old(windows)) && Ids(windows) == old(Ids(windows))
      ensures minimisedWindows == old(minimisedWindows) && screen == old(screen) && focus == old(focus)
    {
      NoFullscreenClears(windows);
      var cleared, _ := ClearFullscreen(windows);
      windows := cleared;
    }

    /** `set_fullscreen_window(w)`: the records with id w become fullscreen. */
    method SetFullscreenWindow(w: Window)
      requires Distinct(Ids(windows))
      modifies this
      ensures windows == WithFullscreen(old(windows), w, true) && Ids(windows) == old(Ids(windows))
      ensures minimisedWindows == old(minimisedWindows) && screen == old(screen) && focus == old(focus)
    {
      windows := MarkFullscreen(windows, w, true);
      assert Ids(windows) == old(Ids(windows));
    }

    /**
     * `add_window`: `ManagedWindow` for a managed id; otherwise the
     * fullscreen flags are cleared, the record is appended unminimised
     * (fullscreen when the client asks) and focused, and the store is
     * retiled (`DraftAddedStore`).
     */
    method AddWindow(info: Info) returns (r: Outcome)
      requires Valid()
      modifies this
      ensures Valid() && screen == old(screen) && minimisedWindows == old(minimisedWindows)
      ensures r == if old(IsManaged(info.window)) then Err(ManagedWindow(info.window)) else Ok
      ensures r.Err? ==> windows == old(windows) && focus == old(focus)
      ensures r.Ok? ==> focus == Some(|old(windows)|) && FocusedWindow() == Some(info.window) &&
                        windows == DraftAddedStore(old(windows), info, screen)
      ensures r.Ok? && LedgerAgrees(old(windows), old(minimisedWindows)) ==> LedgerAgrees(windows, minimisedWindows)
    {
      if info.window !in Ids(windows) {
        RemoveFullscreenWindow();
        NoFullscreenKeepsLedger(old(windows), minimisedWindows);
        var record := FromInfo(info);
        IdsAppend(windows, record);
        DistinctAppend(Ids(windows), info.window);
        windows := windows + [record];
        focus := Some(|windows| - 1);
        ghost var added := windows;
        assert LedgerAgrees(old(windows), minimisedWindows) ==> LedgerAgrees(added, minimisedWindows);
        CalculateTiledGeometries();
        DraftAddKeepsOne(old(windows), info, None, screen);
        r := Ok;
      } else {
        r := Err(ManagedWindow(info.window));
      }
    }

    /** `remove_minimised_window(w)`: the ledger loses w and the store is purged as `Min.PurgedStore` says. */
    method RemoveMinimisedWindow(w: Window)
      requires Distinct(Ids(windows)) && (w in minimisedWindows ==> IndexOf(minimisedWindows, w).value < |windows|)
      modifies this
      ensures Distinct(Ids(windows)) && screen == old(screen) && focus == old(focus)
      ensures windows == Min.PurgedStore(old(windows), old(minimisedWindows), w)
      ensures minimisedWindows == Unlisted(old(minimisedWindows), w)
      ensures AtMostOneFullscreen(old(windows)) ==> AtMostOneFullscreen(windows)
    {
      match IndexOf(minimisedWindows, w) {
        case None =>
        case Some(i) =>
          minimisedWindows := RemoveAt(minimisedWindows, i);
          IdsUpdate(windows, i, windows[i].(minimised := false));
          windows := windows[i := windows[i].(minimised := false)];
      }
      SameFullscreenFlags(old(windows), windows);
    }

    /**
     * `remove_window`: `UnknownWindow` for an unmanaged id; otherwise as in
     * the minimising manager (`DraftRemovedStore`, `Min.RemovedLedger`), and
     * the focus is cleared, decremented or kept.
     */
    method RemoveWindow(w: Window) returns (r: Outcome)
      requires Valid() && Min.RemovalIsSafe(windows, minimisedWindows, w)
      modifies this
      ensures Valid() && screen == old(screen) && !IsManaged(w)
      ensures r == if old(IsManaged(w)) then Ok else Err(UnknownWindow(w))
      ensures r.Err? ==> windows == old(windows) && minimisedWindows == old(minimisedWindows) && focus == old(focus)
      ensures r.Ok? ==>
                windows == DraftRemovedStore(old(windows), old(minimisedWindows), w, screen) &&
                minimisedWindows == Min.RemovedLedger(old(windows), old(minimisedWindows), w) &&
                focus == FocusAfterRemove(old(focus), IndexOf(old(Ids(windows)), w).value)
    {
      match IndexOf(Ids(windows), w)
      case None =>
        r := Err(UnknownWindow(w));
      case Some(i) =>
        var gone := windows[i];
        IdsRemoveAt(windows, i);
        DistinctRemoveAt(Ids(windows), i);
        AtMostOneRemoveAt(windows, i);
        windows := RemoveAt(windows, i);
        if gone.minimised {
          RemoveMinimisedWindow(gone.window);
        }
        if gone.mode == Tile {
          CalculateTiledGeometries();
        }
        FocusFollowsRemoval(old(windows), i, focus);
        focus := FocusAfterRemove(focus, i);
        r := Ok;
    }

    /**
     * `toggle_minimised(w)`: the fullscreen flags are cleared, then the store
     * and the ledger become `DraftToggledStore` and `Min.ToggledLedger`; the
     * outcome is `UnknownWindow` exactly for an unmanaged id.
     */
    method ToggleMinimised(w: Window) returns (r: Outcome)
      requires Valid()
      modifies this
      ensures Valid() && screen == old(screen) && focus == old(focus)
      ensures r == if old(IsManaged(w)) then Ok else Err(UnknownWindow(w))
      ensures windows == DraftToggledStore(old(windows), old(minimisedWindows), w, screen)
      ensures minimisedWindows == Min.ToggledLedger(old(windows), old(minimisedWindows), w)
    {
      RemoveFullscreenWindow();
      NoFullscreenClears(old(windows));
      if w in minimisedWindows {
        minimisedWindows := RemoveAt(minimisedWindows, IndexOf(minimisedWindows, w).value);
        match IndexOf(Ids(windows), w)
        case None =>
          r := Err(UnknownWindow(w));
        case Some(i) =>
          SetMinimised(i, false);
          r := Ok;
      } else {
        match IndexOf(Ids(windows), w)
        case None =>
          r := Err(UnknownWindow(w));
        case Some(i) =>
          SetMinimised(i, true);
          minimisedWindows := minimisedWindows + [w];
          r := Ok;
      }
    }

    /** The flag update of `toggle_minimised` on the record at `i`, followed by `calculate_tiled_geometries`. */
    method SetMinimised(i: nat, on: bool)
      requires Valid() && i < |windows|
      modifies this
      ensures Valid() && windows == DraftRetiled(old(windows)[i := old(windows)[i].(minimised := on)], screen)
      ensures minimisedWindows == old(minimisedWindows) && screen == old(screen) && focus == old(focus)
    {
      IdsUpdate(windows, i, windows[i].(minimised := on));
      SameFullscreenFlags(windows, windows[i := windows[i].(minimised := on)]);
      windows := windows[i := windows[i].(minimised := on)];
      CalculateTiledGeometries();
    }

    /**
     * `focus_window`: None clears the focus and nothing else; an unmanaged
     * id is `UnknownWindow`; otherwise w is focused and the store becomes
     * `DraftFocusedStore` (fullscreen flags cleared, w toggled back when
     * minimised, a retiling).
     */
    method FocusWindow(window: Option<Window>) returns (r: Outcome)
      requires Valid()
      modifies this
      ensures Valid() && screen == old(screen)
      ensures window.None? ==>
                r == Ok && focus == None && windows == old(windows) && minimisedWindows == old(minimisedWindows)
      ensures window.Some? && !old(IsManaged(window.value)) ==>
                r == Err(UnknownWindow(window.value)) && windows == old(windows) &&
                minimisedWindows == old(minimisedWindows) && focus == old(focus)
      ensures window.Some? && old(IsManaged(window.value)) ==>
                r == Ok && focus == Some(IndexOf(old(Ids(windows)), window.value).value) && FocusedWindow() == window &&
                windows == DraftFocusedStore(old(windows), old(minimisedWindows), window.value, screen) &&
                minimisedWindows == Min.RevealedLedger(old(windows), old(minimisedWindows), window.value)
    {
      match window
      case None =>
        focus := None;
        r := Ok;
      case Some(gw) =>
        match IndexOf(Ids(windows), gw)
        case None =>
          r := Err(UnknownWindow(gw));
        case Some(i) =>
          FocusAt(i, gw);
          r := Ok;
    }

    /** The managed case of `focus_window`: w's record sits at `i`. */
    method FocusAt(i: nat, w: Window)
      requires Valid() && i < |windows| && IndexOf(Ids(windows), w) == Some(i)
      modifies this
      ensures Valid() && screen == old(screen) && focus == Some(i) && FocusedWindow() == Some(w)
      ensures windows == DraftFocusedStore(old(windows), old(minimisedWindows), w, screen)
      ensures minimisedWindows == Min.RevealedLedger(old(windows), old(minimisedWindows), w)
    {
      var wasMinimised := windows[i].minimised;
      focus := Some(i);
      RemoveFullscreenWindow();
      NoFullscreenClears(old(windows));
      ghost var c := windows;
      if wasMinimised {
        var _ := ToggleMinimised(w);
        assert Min.ToggledLedger(c, old(minimisedWindows), w) == Min.ToggledLedger(old(windows), old(minimisedWindows), w);
      }
      CalculateTiledGeometries();
    }

    /**
     * `cycle_focus`: the focus moves as `CycledFocus` says, the newly
     * focused window's minimised state is toggled (which clears every
     * fullscreen flag), and the final clearing loop finds nothing left.
     */
    method CycleFocus(dir: Direction)
      requires Valid()
      modifies this
      ensures Valid() && screen == old(screen)
      ensures focus == CycledFocus(old(focus), |old(windows)|, dir)
      ensures focus.None? ==> windows == old(windows) && minimisedWindows == old(minimisedWindows)
      ensures focus.Some? ==>
                var w := old(windows)[focus.value].window;
                windows == DraftToggledStore(old(windows), old(minimisedWindows), w, screen) &&
                minimisedWindows == Min.ToggledLedger(old(windows), old(minimisedWindows), w)
    {
      MoveFocus(dir);
      match focus {
        case None =>
        case Some(index) =>
          var _ := ToggleMinimised(windows[index].window);
      }
      // the toggle (or an empty store) left no fullscreen record, so the
      // clearing loop changes nothing and the retiling after it never runs
      NoFullscreenClears(windows);
      var cleared, fullscreen := ClearFullscreen(windows);
      assert !fullscreen && cleared == windows;
      windows := cleared;
    }

    /** The index move at the start of `cycle_focus`. */
    method MoveFocus(dir: Direction)
      requires Valid()
      modifies this
      ensures windows == old(windows) && minimisedWindows == old(minimisedWindows) && screen == old(screen)
      ensures Valid() && focus == CycledFocus(old(focus), |windows|, dir)
    {
      if |windows| > 1 {
        match focus
        case None =>
          focus := Some(0);
        case Some(index) =>
          match dir
          case Prev =>
            if index != 0 {
              focus := Some(index - 1);
            } else {
              focus := Some(|windows| - 1);
            }
          case Next =>
            if index != |windows| - 1 {
              focus := Some(index + 1);
            } else {
              focus := Some(0);
            }
      } else if |windows| == 1 {
        focus := Some(0);
      }
    }

    /** `resize_screen`: the new screen, then a retiling. */
    method ResizeScreen(screen: Screen)
      requires Valid()
      modifies this
      ensures Valid() && this.screen == screen && windows == DraftRetiled(old(windows), screen)
      ensures minimisedWindows == old(minimisedWindows) && focus == old(focus)
    {
      this.screen := screen;
      CalculateTiledGeometries();
    }

    /**
     * `swap_with_master`: the fullscreen flags are cleared first, whatever
     * follows; `UnknownWindow` for an unmanaged id; `Ok` and nothing more
     * without a Tile record; otherwise w trades places with the first Tile
     * record, the store is retiled and w is focused there. A Tile w then is
     * the master.
     */
    method SwapWithMaster(w: Window) returns (r: Outcome)
      requires Valid()
      modifies this
      ensures Valid() && screen == old(screen)
      ensures r == if old(IsManaged(w)) then Ok else Err(UnknownWindow(w))
      ensures var c := NoFullscreen(old(windows));
        r.Err? || FirstWhere(c, IsTile).None? ==>
          windows == c && minimisedWindows == old(minimisedWindows) && focus == old(focus)
      ensures var c := NoFullscreen(old(windows));
        r.Ok? && FirstWhere(c, IsTile).Some? ==>
          var mi := FirstWhere(c, IsTile).value;
          var wi := IndexOf(old(Ids(windows)), w).value;
          var swapped := DraftSwappedStore(c, mi, wi, screen);
          focus == Some(mi) && FocusedWindow() == Some(w) &&
          windows == DraftFocusedStore(swapped, old(minimisedWindows), w, screen) &&
          minimisedWindows == Min.RevealedLedger(swapped, old(minimisedWindows), w)
      ensures r.Ok? && old(windows)[IndexOf(old(Ids(windows)), w).value].mode == Tile ==> MasterWindow() == Some(w)
    {
      RemoveFullscreenWindow();
      NoFullscreenClears(old(windows));
      match IndexOf(Ids(windows), w)
      case None =>
        r := Err(UnknownWindow(w));
      case Some(wi) =>
        match FirstWhere(windows, IsTile)
        case None =>
          r := Ok;
        case Some(mi) =>
          assert windows == NoFullscreen(old(windows)) && wi == IndexOf(old(Ids(windows)), w).value;
          assert windows[wi].mode == old(windows)[wi].mode;
          r := SwapIntoMaster(mi, wi, w);
          assert Ids(windows)[mi] == w;
    }

    /** The last steps of `swap_with_master`: the swap, the retiling and the focusing. */
    method SwapIntoMaster(mi: nat, wi: nat, w: Window) returns (r: Outcome)
      requires Valid() && FirstWhere(windows, IsTile) == Some(mi) && wi < |windows| && Ids(windows)[wi] == w
      modifies this
      ensures Valid() && screen == old(screen) && r == Ok
      ensures var swapped := DraftSwappedStore(old(windows), mi, wi, screen);
        focus == Some(mi) && FocusedWindow() == Some(w) &&
        windows == DraftFocusedStore(swapped, old(minimisedWindows), w, screen) &&
        minimisedWindows == Min.RevealedLedger(swapped, old(minimisedWindows), w)
      ensures old(windows)[wi].mode == Tile ==> FirstWhere(windows, IsTile) == Some(mi) && windows[mi].window == w
    {
      SwapAndRetile(mi, wi);
      ghost var mid := windows;
      assert Ids(windows)[mi] == w;
      DistinctIndexOf(Ids(windows), mi);
      ghost var ledger := minimisedWindows;
      assert ledger == old(minimisedWindows) && w in Ids(mid);
      r := FocusWindow(Some(w));
      assert minimisedWindows == Min.RevealedLedger(mid, ledger, w);
      assert windows == DraftFocusedStore(mid, ledger, w, screen);
      if old(windows)[wi].mode == Tile {
        DraftSwapMakesMaster(old(windows), ledger, mi, wi, w, screen);
      }
    }

    /** `windows.swap(i, j)` followed by `calculate_tiled_geometries`. */
    method SwapAndRetile(i: nat, j: nat)
      requires Valid() && i < |windows| && j < |windows|
      modifies this
      ensures Valid() && windows == DraftSwappedStore(old(windows), i, j, screen)
      ensures minimisedWindows == old(minimisedWindows) && screen == old(screen) && focus == old(focus)
    {
      IdsSwap(windows, i, j);
      DistinctSwap(Ids(windows), i, j);
      AtMostOneSwap(windows, i, j);
      windows := Swap(windows, i, j);
      CalculateTiledGeometries();
    }

    /**
     * `swap_windows`: the fullscreen flags are cleared; then, with two or
     * more records and a focused Tile record, it trades places with the
     * nearest shown Tile record in direction `dir` (see `Neighbour`), the
     * focus follows it and the store is retiled; otherwise nothing more.
     */
    method SwapWindows(dir: Direction)
      requires Valid()
      modifies this
      ensures Valid() && screen == old(screen) && minimisedWindows == old(minimisedWindows)
      ensures var c, f := NoFullscreen(old(windows)), old(focus);
        if |c| > 1 && f.Some? && c[f.value].mode == Tile && Neighbour(Where(c, IsTiled), f.value, dir).Some? then
          var j := Neighbour(Where(c, IsTiled), f.value, dir).value;
          windows == DraftSwappedStore(c, f.value, j, screen) && focus == Some(j) &&
          windows[j].window == old(windows)[f.value].window && IsTiled(old(windows)[j])
        else windows == c && focus == old(focus)
    {
      RemoveFullscreenWindow();
      NoFullscreenClears(old(windows));
      if |windows| > 1 {
        match focus {
          case None =>
          case Some(index) =>
            if windows[index].mode == Tile {
              match Neighbour(Where(windows, IsTiled), index, dir) {
                case None =>
                case Some(j) =>
                  focus := Some(j);
                  SwapAndRetile(index, j);
              }
            }
        }
      }
    }

    /**
     * `toggle_floating`: the fullscreen flags are cleared, for an unmanaged
     * id too, which is `UnknownWindow`; otherwise the store becomes
     * `DraftFlippedStore`.
     */
    method ToggleFloating(w: Window) returns (r: Outcome)
      requires Valid()
      modifies this
      ensures Valid() && screen == old(screen) && focus == old(focus) && minimisedWindows == old(minimisedWindows)
      ensures r == if old(IsManaged(w)) then Ok else Err(UnknownWindow(w))
      ensures r.Err? ==> windows == NoFullscreen(old(windows))
      ensures r.Ok? ==> windows == DraftFlippedStore(old(windows), IndexOf(old(Ids(windows)), w).value, screen)
    {
      RemoveFullscreenWindow();
      NoFullscreenClears(old(windows));
      match IndexOf(Ids(windows), w)
      case None =>
        r := Err(UnknownWindow(w));
      case Some(i) =>
        IdsUpdate(windows, i, Flipped(windows[i]));
        if windows[i].mode == Tile {
          windows := windows[i := windows[i].(geometry := windows[i].savedGeometry, mode := Float)];
        } else {
          windows := windows[i := windows[i].(mode := Tile)];
        }
        CalculateTiledGeometries();
        r := Ok;
    }

    /**
     * `set_window_geometry`: `UnknownWindow` for an unmanaged id,
     * `NoFloatingWindow` for a Tile record; otherwise both the geometry and
     * the saved geometry become `g`, with no retiling.
     */
    method SetWindowGeometry(w: Window, g: Geometry) returns (r: Outcome)
      requires Valid()
      modifies this
      ensures Valid() && screen == old(screen) && focus == old(focus) && minimisedWindows == old(minimisedWindows)
      ensures !old(IsManaged(w)) ==> r == Err(UnknownWindow(w)) && windows == old(windows)
      ensures old(IsManaged(w)) ==>
                var i := IndexOf(old(Ids(windows)), w).value;
                if old(windows)[i].mode == Tile then r == Err(NoFloatingWindow(w)) && windows == old(windows)
                else r == Ok && windows == old(windows)[i := old(windows)[i].(geometry := g, savedGeometry := g)]
    {
      match IndexOf(Ids(windows), w)
      case None =>
        r := Err(UnknownWindow(w));
      case Some(i) =>
        if windows[i].mode == Tile {
          r := Err(NoFloatingWindow(windows[i].window));
        } else {
          IdsUpdate(windows, i, windows[i].(geometry := g, savedGeometry := g));
          windows := windows[i := windows[i].(savedGeometry := g, geometry := g)];
          SameFullscreenFlags(old(windows), windows);
          r := Ok;
        }
    }

    /**
     * `toggle_fullscreen(w)`: the store becomes `DraftFullscreenToggled`
     * and the outcome is always `Ok`. Only when another window was
     * fullscreen is w focused (and the ledger updated as focusing does);
     * an unmanaged w then panics at `unwrap`, hence the second requires.
     */
    method ToggleFullscreen(w: Window) returns (r: Outcome)
      requires Valid()
      requires LastFullscreen(windows).Some? && LastFullscreen(windows).value.window != w ==> w in Ids(windows)
      modifies this
      ensures Valid() && screen == old(screen) && r == Ok
      ensures windows == DraftFullscreenToggled(old(windows), old(minimisedWindows), w, screen)
      ensures var f := LastFullscreen(old(windows));
        if f.Some? && f.value.window != w then
          focus == Some(IndexOf(old(Ids(windows)), w).value) &&
          minimisedWindows == Min.RevealedLedger(old(windows), old(minimisedWindows), w)
        else focus == old(focus) && minimisedWindows == old(minimisedWindows)
    {
      NoFullscreenClears(windows);
      var full := GetFullscreenWindow();
      match full {
        case None =>
          WithFullscreenOnly(windows, w);
          SetFullscreenWindow(w);
          assert windows == WithFullscreen(old(windows), w, true);
        case Some(fw) =>
          RemoveFullscreenWindow();
          if fw != w {
            RevealedLedgerCleared(old(windows), old(minimisedWindows), w);
            FocusFullscreen(w);
          } else {
            assert windows == NoFullscreen(old(windows));
          }
      }
      CalculateTiledGeometries();
      r := Ok;
    }

    /** The branch of `toggle_fullscreen` for another fullscreen window, once the flags are cleared. */
    method FocusFullscreen(w: Window)
      requires Valid() && w in Ids(windows)
      modifies this
      ensures Valid() && screen == old(screen) && focus == Some(IndexOf(old(Ids(windows)), w).value)
      ensures windows == WithFullscreen(DraftFocusedStore(old(windows), old(minimisedWindows), w, screen), w, true)
      ensures minimisedWindows == Min.RevealedLedger(old(windows), old(minimisedWindows), w)
    {
      var _ := FocusWindow(Some(w));
      WithFullscreenOnly(windows, w);
      SetFullscreenWindow(w);
    }
  }
}
