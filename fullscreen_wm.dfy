/**
 * The final manager (`FullscreenWM`): Tile records before Float records in
 * one store, a ledger of minimised ids, and at most one fullscreen record,
 * which alone is shown and which takes the whole screen.
 *
 * The state is first modelled as a value (`WmState`) with one function per
 * operation, written as the sequence of helper calls the operation makes;
 * the class `FullscreenWM` at the end keeps the same state in fields and is
 * proved to move exactly as those functions say.
 */
module FullscreenManager {
  import opened Basics
  import opened Sequences
  import opened Scans
  import opened Records

  /** The manager's fields: the store, `minimised_windows`, the screen and `index_foused_window`. */
  datatype WmState = WmState(windows: seq<Record>, ledger: seq<Window>, screen: Screen, focus: Option<nat>)

  /** Every Tile record comes before every Float record. */
  predicate Partitioned(ws: seq<Record>)
  {
    forall i, j :: 0 <= i < j < |ws| && ws[i].mode == Float ==> ws[j].mode == Float
  }

  predicate FocusInRange(s: WmState)
  {
    s.focus.Some? ==> s.focus.value < |s.windows|
  }

  /**
   * What every operation keeps: ids stored once, the focus names a record,
   * the store is partitioned into Tiles and then Floats, and at most one
   * record is fullscreen.
   */
  predicate WellFormed(s: WmState)
  {
    Distinct(Ids(s.windows)) && FocusInRange(s) && Partitioned(s.windows) && AtMostOneFullscreen(s.windows)
  }

  /** A fullscreen record is the focused one. */
  predicate FullscreenFocused(s: WmState)
  {
    forall k :: 0 <= k < |s.windows| && s.windows[k].fullscreen ==> s.focus == Some(k)
  }

  /** No fullscreen record is minimised. */
  predicate FullscreenShown(ws: seq<Record>)
  {
    forall k :: 0 <= k < |ws| && ws[k].fullscreen ==> !ws[k].minimised
  }

  /**
   * Every minimised record's id is in the ledger: the half of the ledger's
   * agreement that `remove_window` keeps, and what the ledger guard of
   * `remove_minimised_window` needs to show a record again.
   */
  predicate MinimisedListed(s: WmState)
  {
    forall k :: 0 <= k < |s.windows| && s.windows[k].minimised ==> s.windows[k].window in s.ledger
  }

  /** The two stores differ at most in the fullscreen and minimised flags, position by position. */
  predicate FlagsOnly(a: seq<Record>, b: seq<Record>)
  {
    |a| == |b| && forall k :: 0 <= k < |a| ==> b[k] == a[k].(fullscreen := b[k].fullscreen, minimised := b[k].minimised)
  }

  lemma FlagsKeepShape(a: seq<Record>, b: seq<Record>)
    requires FlagsOnly(a, b)
    ensures Ids(b) == Ids(a) && (Partitioned(b) <==> Partitioned(a))
    ensures Where(b, IsTile) == Where(a, IsTile) && Where(b, IsFloat) == Where(a, IsFloat)
  {
    assert forall k :: 0 <= k < |a| ==> b[k].window == a[k].window && b[k].mode == a[k].mode;
  }

  /** Flags only switched off keep "at most one fullscreen record". */
  lemma FlagsOffKeepOne(a: seq<Record>, b: seq<Record>)
    requires |a| == |b| && AtMostOneFullscreen(a)
    requires forall k :: 0 <= k < |a| && b[k].fullscreen ==> a[k].fullscreen
    ensures AtMostOneFullscreen(b)
  {
  }

  lemma PartitionedRemoveAt(ws: seq<Record>, i: nat)
    requires Partitioned(ws) && i < |ws|
    ensures Partitioned(RemoveAt(ws, i))
  {
    var r := RemoveAt(ws, i);
    forall a, b | 0 <= a < b < |r| && r[a].mode == Float
      ensures r[b].mode == Float
    {
      var a' := if a < i then a else a + 1;
      var b' := if b < i then b else b + 1;
      assert r[a] == ws[a'] && r[b] == ws[b'];
    }
  }

  lemma PartitionedSwapTiles(ws: seq<Record>, i: nat, j: nat)
    requires Partitioned(ws) && i < |ws| && j < |ws| && ws[i].mode == Tile && ws[j].mode == Tile
    ensures Partitioned(Swap(ws, i, j))
  {
    var r := Swap(ws, i, j);
    assert forall k :: 0 <= k < |ws| ==> r[k].mode == ws[k].mode;
  }

  // ---------------------------------------------------------------------------
  // update_geometries
  // ---------------------------------------------------------------------------

  /**
   * The number of right-hand slices `update_geometries` cuts: the store size
   * minus the shown Floats, the minimised Tiles, the minimised Floats, the
   * master and one more when some record is fullscreen, when that is positive.
   */
  function Divisor(ws: seq<Record>): nat
  {
    var nonTiled := Count(Where(ws, IsShownFloat)) + Count(Where(ws, IsMinimisedTile)) +
                    Count(Where(ws, IsMinimisedFloat)) + 1 + (if HasFullscreen(ws) then 1 else 0);
    if |ws| > nonTiled then |ws| - nonTiled else 0
  }

  /**
   * In terms of the shown Tile records: with n of them and f = 1 when some
   * record is fullscreen, the divisor is n - 1 - f when that is positive.
   */
  lemma DivisorCounts(ws: seq<Record>)
    ensures var n := Count(Where(ws, IsTiled));
      var f := if HasFullscreen(ws) then 1 else 0;
      Divisor(ws) == if n >= 2 + f then n - 1 - f else 0
  {
    CountByKind(ws, |ws|);
    CountFloats(ws, |ws|);
    assert Where(ws, IsFloat)[..|ws|] == Where(ws, IsFloat);
    assert Where(ws, IsMinimisedTile)[..|ws|] == Where(ws, IsMinimisedTile);
    assert Where(ws, IsTiled)[..|ws|] == Where(ws, IsTiled);
    assert Where(ws, IsShownFloat)[..|ws|] == Where(ws, IsShownFloat);
    assert Where(ws, IsMinimisedFloat)[..|ws|] == Where(ws, IsMinimisedFloat);
  }

  /**
   * The store after `update_geometries`: fullscreen records get the screen;
   * then, with a positive divisor, the stacking loop over the shown
   * non-fullscreen Tiles with the first shown Tile's id as master, or else
   * the first shown Tile gets the screen. Only geometries change.
   */
  function Retiled(ws: seq<Record>, screen: Screen): (r: seq<Record>)
    ensures |r| == |ws| && Ids(r) == Ids(ws)
    ensures forall k :: 0 <= k < |ws| ==> r[k] == ws[k].(geometry := r[k].geometry)
  {
    if ws == [] then ws
    else
      var s := ScreenFullscreen(ws, screen);
      assert Ids(s) == Ids(ws);
      Retile(s, IsStacked, FirstWhere(s, IsTiled), Divisor(s), screen)
  }

  /** Without a fullscreen record the update is the shown-Tile stacking of the store itself. */
  lemma RetiledNoFullscreen(ws: seq<Record>, screen: Screen)
    requires !HasFullscreen(ws) && ws != []
    ensures Retiled(ws, screen) == Retile(ws, IsTiled, FirstWhere(ws, IsTiled), Divisor(ws), screen)
  {
    ScreenFullscreenNone(ws, screen);
    RetileSamePart(ws, IsStacked, IsTiled, FirstWhere(ws, IsTiled), Divisor(ws), screen);
  }

  /**
   * Without a fullscreen record and with n >= 2 shown Tiles, the shown Tile
   * of rank r gets the master/stack rectangle of r among n; Floats and
   * minimised records keep their geometry.
   */
  lemma RetiledMasterStack(ws: seq<Record>, screen: Screen)
    requires Distinct(Ids(ws)) && !HasFullscreen(ws) && Count(Where(ws, IsTiled)) >= 2
    ensures forall k :: 0 <= k < |ws| && IsTiled(ws[k]) ==>
      Count(Where(ws, IsTiled)[..k]) < Count(Where(ws, IsTiled)) &&
      Retiled(ws, screen)[k].geometry == MasterStack(screen, Count(Where(ws, IsTiled)), Count(Where(ws, IsTiled)[..k]))
    ensures forall k :: 0 <= k < |ws| && !IsTiled(ws[k]) ==> Retiled(ws, screen)[k] == ws[k]
  {
    RetiledIsStacking(ws, screen);
    StackedTiles(ws, screen, FirstWhere(ws, IsTiled).value);
  }

  /** Without a fullscreen record and with n >= 2 shown Tiles, the update stacks them with divisor n - 1. */
  lemma RetiledIsStacking(ws: seq<Record>, screen: Screen)
    requires !HasFullscreen(ws) && Count(Where(ws, IsTiled)) >= 2
    ensures FirstWhere(ws, IsTiled).Some?
    ensures Retiled(ws, screen) == Retile(ws, IsTiled, FirstWhere(ws, IsTiled), Count(Where(ws, IsTiled)) - 1, screen)
  {
    DivisorStacked(ws);
    SomeTiled(ws);
    RetiledNoFullscreen(ws, screen);
  }

  lemma DivisorStacked(ws: seq<Record>)
    requires !HasFullscreen(ws) && Count(Where(ws, IsTiled)) >= 2
    ensures Divisor(ws) == Count(Where(ws, IsTiled)) - 1
  {
    DivisorCounts(ws);
  }

  /** A positive divisor means there is a shown Tile to be the master. */
  lemma DivisorPositive(ws: seq<Record>)
    requires Divisor(ws) > 0
    ensures FirstWhere(ws, IsTiled).Some?
  {
    DivisorCounts(ws);
    SomeTiled(ws);
  }

  lemma SomeTiled(ws: seq<Record>)
    requires Count(Where(ws, IsTiled)) >= 1
    ensures FirstWhere(ws, IsTiled).Some?
  {
    CountPositive(Where(ws, IsTiled));
    var k :| 0 <= k < |ws| && Where(ws, IsTiled)[k];
  }

  lemma StackedTiles(ws: seq<Record>, screen: Screen, m: nat)
    requires Distinct(Ids(ws)) && FirstWhere(ws, IsTiled) == Some(m) && Count(Where(ws, IsTiled)) >= 2
    ensures var n := Count(Where(ws, IsTiled));
      var t := Retile(ws, IsTiled, Some(m), n - 1, screen);
      (forall k :: 0 <= k < |ws| && IsTiled(ws[k]) ==>
        Count(Where(ws, IsTiled)[..k]) < n && t[k].geometry == MasterStack(screen, n, Count(Where(ws, IsTiled)[..k]))) &&
      (forall k :: 0 <= k < |ws| && !IsTiled(ws[k]) ==> t[k] == ws[k])
  {
    var n := Count(Where(ws, IsTiled));
    RetileIsMasterStack(ws, IsTiled, m, screen);
    forall k | 0 <= k < |ws| && !IsTiled(ws[k])
      ensures Retile(ws, IsTiled, Some(m), n - 1, screen)[k] == ws[k]
    {
      RetileKeepsOthers(ws, IsTiled, Some(m), n - 1, screen, k);
    }
  }

  /** Without a fullscreen record and with one shown Tile, that record gets the screen and nothing else changes. */
  lemma RetiledSingleTile(ws: seq<Record>, screen: Screen, m: nat)
    requires !HasFullscreen(ws) && Count(Where(ws, IsTiled)) == 1 && m < |ws| && IsTiled(ws[m])
    ensures var r := Retiled(ws, screen);
      r[m] == ws[m].(geometry := ScreenGeometry(screen)) && forall k :: 0 <= k < |ws| && k != m ==> r[k] == ws[k]
  {
    RetiledNoFullscreen(ws, screen);
    DivisorCounts(ws);
    var f := FirstWhere(ws, IsTiled);
    assert f.Some? by { assert Where(ws, IsTiled)[m]; }
    if f.value != m {
      assert f.value < m;
      CountPrefixStep(Where(ws, IsTiled), f.value);
      CountMonotone(Where(ws, IsTiled), f.value + 1, m);
      CountPrefixBound(Where(ws, IsTiled), m);
      assert false;
    }
    RetileSingle(ws, IsTiled, m, screen);
  }

  /** A fullscreen record gets the screen; a Float that is not fullscreen keeps its geometry. */
  lemma RetiledAt(ws: seq<Record>, screen: Screen, k: nat)
    requires k < |ws|
    ensures ws[k].fullscreen ==> Retiled(ws, screen)[k].geometry == ScreenGeometry(screen)
    ensures ws[k].mode == Float && !ws[k].fullscreen ==> Retiled(ws, screen)[k] == ws[k]
  {
    var s := ScreenFullscreen(ws, screen);
    var m := FirstWhere(s, IsTiled);
    assert Retiled(ws, screen) == Retile(s, IsStacked, m, Divisor(s), screen);
    if ws[k].fullscreen || ws[k].mode == Float {
      if m == Some(k) && Divisor(s) == 0 {
        RetileSingle(s, IsStacked, k, screen);
      } else if m != Some(k) {
        RetileKeepsOthers(s, IsStacked, m, Divisor(s), screen, k);
      }
    }
  }

  // ---------------------------------------------------------------------------
  // get_window_layout
  // ---------------------------------------------------------------------------

  /** The entry `e` moved to the end of `es` (the `position` / `remove` / `push` of the layout). */
  function MoveToEnd(es: seq<(Window, Geometry)>, e: (Window, Geometry)): (r: seq<(Window, Geometry)>)
    ensures multiset(r) == multiset(es)
    ensures e in es ==> r != [] && r[|r| - 1] == e
    ensures e !in es ==> r == es
  {
    match IndexOf(es, e)
    case None => es
    case Some(i) => RemoveAt(es, i) + [e]
  }

  /**
   * `get_window_layout`: nothing for an empty store; the last fullscreen
   * record alone, focused, when there is one; otherwise every shown record
   * in store order, the focused one moved to the end when it is a Float at
   * or before the first Float position.
   */
  function WindowLayout(ws: seq<Record>, focus: Option<nat>): Layout
    requires focus.Some? ==> focus.value < |ws|
  {
    if ws == [] then EmptyLayout
    else
      match LastFullscreen(ws)
      case Some(f) => Layout(Some(f.window), [(f.window, f.geometry)])
      case None =>
        var shown := EntriesWhere(ws, IsShown);
        match focus
        case None => Layout(None, shown)
        case Some(index) =>
          match FirstWhere(ws, IsFloat)
          case None => Layout(Some(ws[index].window), shown)
          case Some(p) =>
            if p >= index && ws[index].mode == Float then
              Layout(Some(ws[index].window), MoveToEnd(shown, (ws[index].window, ws[index].geometry)))
            else Layout(Some(ws[index].window), shown)
  }

  /** With at most one fullscreen record, the layout is that record alone, focused, at its geometry. */
  lemma LayoutFullscreen(ws: seq<Record>, focus: Option<nat>, k: nat)
    requires AtMostOneFullscreen(ws) && (focus.Some? ==> focus.value < |ws|) && k < |ws| && ws[k].fullscreen
    ensures WindowLayout(ws, focus) == Layout(Some(ws[k].window), [(ws[k].window, ws[k].geometry)])
  {
    LastFullscreenUnique(ws, k);
  }

  /** The focused record is the first Float of the store. */
  predicate FirstFloatFocused(ws: seq<Record>, focus: Option<nat>)
  {
    focus.Some? && FirstWhere(ws, IsFloat) == focus
  }

  /**
   * Without a fullscreen record the layout shows exactly the shown records
   * and reports the focused one; the shown records keep store order, except
   * that the focused record moves to the end exactly when it is the first
   * Float of the store and shown.
   */
  lemma LayoutShown(ws: seq<Record>, focus: Option<nat>)
    requires Distinct(Ids(ws)) && !HasFullscreen(ws) && ws != [] && (focus.Some? ==> focus.value < |ws|)
    ensures var l := WindowLayout(ws, focus);
      var shown := EntriesWhere(ws, IsShown);
      l.focusedWindow == FocusedOf(ws, focus) && multiset(l.windows) == multiset(shown) &&
      (!FirstFloatFocused(ws, focus) ==> l.windows == shown) &&
      (FirstFloatFocused(ws, focus) ==>
        var e := (ws[focus.value].window, ws[focus.value].geometry);
        (ws[focus.value].minimised ==> l.windows == shown) &&
        (!ws[focus.value].minimised ==> l.windows == MoveToEnd(shown, e) && l.windows[|l.windows| - 1] == e))
  {
    if focus.Some? {
      var index := focus.value;
      EntryShown(ws, index);
      var p := FirstWhere(ws, IsFloat);
      if p.Some? && p.value >= index && ws[index].mode == Float {
        assert Where(ws, IsFloat)[index];
        assert p.value == index;
      }
    }
  }

  /** With distinct ids, the entry of the record at `i` is among the shown entries exactly when the record is shown. */
  lemma EntryShown(ws: seq<Record>, i: nat)
    requires Distinct(Ids(ws)) && i < |ws|
    ensures (ws[i].window, ws[i].geometry) in EntriesWhere(ws, IsShown) <==> !ws[i].minimised
  {
    var e := (ws[i].window, ws[i].geometry);
    forall k | 0 <= k < |ws| && e == (ws[k].window, ws[k].geometry)
      ensures k == i
    {
      assert Ids(ws)[k] == Ids(ws)[i];
    }
  }

  // ---------------------------------------------------------------------------
  // The private helpers, on the state
  // ---------------------------------------------------------------------------

  /**
   * `remove_minimised_window(w)`: when w is in the ledger, its entry goes
   * and the record with id w is shown again; otherwise nothing changes.
   */
  function RemoveMinimised(s: WmState, w: Window): (r: WmState)
    ensures r.screen == s.screen && r.focus == s.focus && r.ledger == Unlisted(s.ledger, w)
    ensures FlagsOnly(s.windows, r.windows) && Ids(r.windows) == Ids(s.windows)
    ensures forall k :: 0 <= k < |s.windows| ==> r.windows[k].fullscreen == s.windows[k].fullscreen
    ensures forall k :: 0 <= k < |s.windows| && s.windows[k].window != w ==> r.windows[k] == s.windows[k]
    ensures forall k :: 0 <= k < |s.windows| && r.windows[k].minimised ==> s.windows[k].minimised
    ensures w !in s.ledger ==> r == s
    ensures w in s.ledger && Distinct(Ids(s.windows)) ==>
              forall k :: 0 <= k < |s.windows| && s.windows[k].window == w ==> !r.windows[k].minimised
    ensures WellFormed(s) ==> WellFormed(r)
  {
    if w in s.ledger then s.(ledger := Unlisted(s.ledger, w), windows := Unminimised(s.windows, w))
    else s
  }

  /** The record with id w, if any, shown again. */
  function Unminimised(ws: seq<Record>, w: Window): (r: seq<Record>)
    ensures FlagsOnly(ws, r) && Ids(r) == Ids(ws)
    ensures Partitioned(r) == Partitioned(ws) && AtMostOneFullscreen(r) == AtMostOneFullscreen(ws)
    ensures forall k :: 0 <= k < |ws| ==> r[k].fullscreen == ws[k].fullscreen
    ensures forall k :: 0 <= k < |ws| && ws[k].window != w ==> r[k] == ws[k]
    ensures forall k :: 0 <= k < |ws| && r[k].minimised ==> ws[k].minimised
    ensures Distinct(Ids(ws)) ==> forall k :: 0 <= k < |ws| && ws[k].window == w ==> !r[k].minimised
  {
    match IndexOf(Ids(ws), w)
    case None =>
      assert forall k :: 0 <= k < |ws| ==> Ids(ws)[k] == ws[k].window;
      ws
    case Some(j) =>
      MinimisedAt(ws, j, false);
      ws[j := ws[j].(minimised := false)]
  }

  /** Setting the minimised flag of the record at `j` changes that flag only, and only at ids equal to the record's. */
  lemma MinimisedAt(ws: seq<Record>, j: nat, on: bool)
    requires j < |ws|
    ensures var r := ws[j := ws[j].(minimised := on)];
      FlagsOnly(ws, r) && Ids(r) == Ids(ws) && (Partitioned(r) <==> Partitioned(ws)) &&
      (AtMostOneFullscreen(r) <==> AtMostOneFullscreen(ws)) &&
      (forall k :: 0 <= k < |ws| ==> r[k].fullscreen == ws[k].fullscreen) &&
      (Distinct(Ids(ws)) ==> forall k :: 0 <= k < |ws| && ws[k].window == ws[j].window ==> k == j)
  {
    var r := ws[j := ws[j].(minimised := on)];
    FlagsKeepShape(ws, r);
    if Distinct(Ids(ws)) {
      forall k | 0 <= k < |ws| && ws[k].window == ws[j].window
        ensures k == j
      {
        assert Ids(ws)[k] == Ids(ws)[j];
      }
    }
  }

  /** `set_minimised_window(w)`: when w is managed, its record is minimised and w joins the ledger. */
  function SetMinimised(s: WmState, w: Window): (r: WmState)
    ensures r.screen == s.screen && r.focus == s.focus
    ensures w in Ids(s.windows) ==> r.ledger == s.ledger + [w]
    ensures w !in Ids(s.windows) ==> r == s
    ensures FlagsOnly(s.windows, r.windows) && Ids(r.windows) == Ids(s.windows)
    ensures forall k :: 0 <= k < |s.windows| ==> r.windows[k].fullscreen == s.windows[k].fullscreen
    ensures forall k :: 0 <= k < |s.windows| && s.windows[k].window != w ==> r.windows[k] == s.windows[k]
    ensures Distinct(Ids(s.windows)) ==>
              forall k :: 0 <= k < |s.windows| && s.windows[k].window == w ==> r.windows[k].minimised
    ensures WellFormed(s) ==> WellFormed(r)
  {
    match IndexOf(Ids(s.windows), w)
    case None =>
      assert forall k :: 0 <= k < |s.windows| ==> Ids(s.windows)[k] == s.windows[k].window;
      s
    case Some(i) =>
      MinimisedAt(s.windows, i, true);
      s.(windows := s.windows[i := s.windows[i].(minimised := true)], ledger := s.ledger + [w])
  }

  /** `set_fullscreen_window(w)` (on) and `remove_fullscreen_window(w)` (off). */
  function Reflagged(s: WmState, w: Window, on: bool): (r: WmState)
    ensures r.screen == s.screen && r.focus == s.focus && r.ledger == s.ledger
    ensures FlagsOnly(s.windows, r.windows) && Ids(r.windows) == Ids(s.windows)
    ensures forall k :: 0 <= k < |s.windows| ==> r.windows[k].minimised == s.windows[k].minimised
    ensures forall k :: 0 <= k < |s.windows| ==>
              r.windows[k].fullscreen == if s.windows[k].window == w then on else s.windows[k].fullscreen
    ensures !on && WellFormed(s) ==> WellFormed(r)
    ensures !on && !HasFullscreen(s.windows) ==> !HasFullscreen(r.windows)
    ensures on && WellFormed(s) && !HasFullscreen(s.windows) ==> WellFormed(r)
  {
    var ws := WithFullscreen(s.windows, w, on);
    FlagsKeepShape(s.windows, ws);
    assert on && WellFormed(s) && !HasFullscreen(s.windows) ==> AtMostOneFullscreen(ws) by {
      if on && WellFormed(s) && !HasFullscreen(s.windows) {
        WithFullscreenOnly(s.windows, w);
      }
    }
    s.(windows := ws)
  }

  /** The `iter_mut().filter(fullscreen)` loop: every fullscreen flag cleared. */
  function Cleared(s: WmState): (r: WmState)
    ensures r.screen == s.screen && r.focus == s.focus && r.ledger == s.ledger
    ensures FlagsOnly(s.windows, r.windows) && Ids(r.windows) == Ids(s.windows) && !HasFullscreen(r.windows)
    ensures forall k :: 0 <= k < |s.windows| ==> r.windows[k].minimised == s.windows[k].minimised
    ensures WellFormed(s) ==> WellFormed(r)
  {
    var ws := NoFullscreen(s.windows);
    FlagsKeepShape(s.windows, ws);
    NoFullscreenClears(s.windows);
    s.(windows := ws)
  }

  /** `update_geometries` on the state. */
  function Update(s: WmState): (r: WmState)
    ensures r.ledger == s.ledger && r.screen == s.screen && r.focus == s.focus
    ensures |r.windows| == |s.windows| && Ids(r.windows) == Ids(s.windows)
    ensures forall k :: 0 <= k < |s.windows| ==> r.windows[k] == s.windows[k].(geometry := r.windows[k].geometry)
    ensures HasFullscreen(r.windows) == HasFullscreen(s.windows)
    ensures WellFormed(s) ==> WellFormed(r)
  {
    var ws := Retiled(s.windows, s.screen);
    GeometryOnly(s.windows, ws, s.ledger);
    assert forall k :: 0 <= k < |ws| ==> ws[k].mode == s.windows[k].mode;
    s.(windows := ws)
  }

  // ---------------------------------------------------------------------------
  // The operations, on the state
  // ---------------------------------------------------------------------------

  /**
   * Where `add_window` puts a new record: a Float at the end; a Tile at the
   * first Float position (`get_partion_index`), or at the end when there is
   * no Float.
   */
  function AddedAt(ws: seq<Record>, info: Info): (at: nat)
    ensures at <= |ws|
    ensures info.mode == Float ==> at == |ws|
    ensures info.mode == Tile ==> (forall k :: 0 <= k < at ==> ws[k].mode == Tile) && (at < |ws| ==> ws[at].mode == Float)
  {
    if info.mode == Float then |ws|
    else
      match FirstWhere(ws, IsFloat)
      case None => |ws|
      case Some(p) =>
        assert forall k :: 0 <= k < p ==> !Where(ws, IsFloat)[k];
        p
  }

  /** Inserting where `add_window` inserts keeps the Tiles before the Floats. */
  lemma PartitionedInsert(ws: seq<Record>, info: Info)
    requires Partitioned(ws)
    ensures Partitioned(InsertAt(ws, AddedAt(ws, info), FromInfo(info)))
  {
    var at := AddedAt(ws, info);
    var r := InsertAt(ws, at, FromInfo(info));
    forall a, b | 0 <= a < b < |r| && r[a].mode == Float
      ensures r[b].mode == Float
    {
      if info.mode == Float {
        if b < at {
          assert r[a] == ws[a] && r[b] == ws[b];
        }
      } else {
        assert a > at;
        assert r[a] == ws[a - 1] && r[b] == ws[b - 1];
      }
    }
  }

  /** A new record in a store without a fullscreen record leaves at most one. */
  lemma InsertKeepsOne(ws: seq<Record>, at: nat, x: Record)
    requires !HasFullscreen(ws) && at <= |ws|
    ensures AtMostOneFullscreen(InsertAt(ws, at, x))
    ensures !x.fullscreen ==> !HasFullscreen(InsertAt(ws, at, x))
  {
    var r := InsertAt(ws, at, x);
    forall k | 0 <= k < |r| && k != at
      ensures !r[k].fullscreen
    {
      if k < at {
        assert r[k] == ws[k];
      } else {
        assert r[k] == ws[k - 1];
      }
    }
  }

  /**
   * `add_window` of an unmanaged id: every fullscreen flag cleared, the
   * record (from the client's info, not minimised) inserted where `AddedAt`
   * says and focused, and the store retiled when it is a Tile.
   */
  function Added(s: WmState, info: Info): (r: WmState)
    requires WellFormed(s) && info.window !in Ids(s.windows)
    ensures WellFormed(r) && r.ledger == s.ledger && r.screen == s.screen
    ensures var at := AddedAt(s.windows, info);
      r.focus == Some(at) && Ids(r.windows) == InsertAt(Ids(s.windows), at, info.window)
    ensures !info.fullscreen ==> !HasFullscreen(r.windows)
  {
    var c := Cleared(s);
    var at := AddedAt(c.windows, info);
    assert at == AddedAt(s.windows, info) by {
      FlagsKeepShape(s.windows, c.windows);
    }
    PartitionedInsert(c.windows, info);
    InsertKeepsOne(c.windows, at, FromInfo(info));
    IdsInsertAt(c.windows, at, FromInfo(info));
    DistinctInsertAt(Ids(c.windows), at, info.window);
    var t := Inserted(c, info);
    if info.mode == Float then t else Update(t)
  }

  /** The new record stored where `AddedAt` says, and focused. */
  function Inserted(s: WmState, info: Info): (r: WmState)
    ensures var at := AddedAt(s.windows, info);
      r == s.(windows := InsertAt(s.windows, at, FromInfo(info)), focus := Some(at))
  {
    var at := AddedAt(s.windows, info);
    s.(windows := InsertAt(s.windows, at, FromInfo(info)), focus := Some(at))
  }

  /**
   * `remove_window` of a managed id: the record goes; a minimised one has
   * the fullscreen flag of its (now absent) id cleared; a Tile's removal
   * retiles; the focus is cleared, decremented or kept.
   */
  function Removed(s: WmState, w: Window): (r: WmState)
    requires WellFormed(s) && w in Ids(s.windows)
    ensures WellFormed(r) && r.ledger == s.ledger && r.screen == s.screen
    ensures var i := IndexOf(Ids(s.windows), w).value;
      Ids(r.windows) == RemoveAt(Ids(s.windows), i) && r.focus == FocusAfterRemove(s.focus, i)
    ensures !HasFullscreen(s.windows) ==> !HasFullscreen(r.windows)
  {
    var i := IndexOf(Ids(s.windows), w).value;
    var t := Dropped(s, i);
    var purged := if s.windows[i].minimised then Reflagged(t, w, false) else t;
    if s.windows[i].mode == Tile then Update(purged) else purged
  }

  /** `windows.remove(i)` with the focus adjusted to follow. */
  function Dropped(s: WmState, i: nat): (r: WmState)
    requires WellFormed(s) && i < |s.windows|
    ensures WellFormed(r) && r.ledger == s.ledger && r.screen == s.screen
    ensures r.windows == RemoveAt(s.windows, i) && Ids(r.windows) == RemoveAt(Ids(s.windows), i)
    ensures r.focus == FocusAfterRemove(s.focus, i)
    ensures !HasFullscreen(s.windows) ==> !HasFullscreen(r.windows)
  {
    var rest := RemoveAt(s.windows, i);
    IdsRemoveAt(s.windows, i);
    DistinctRemoveAt(Ids(s.windows), i);
    AtMostOneRemoveAt(s.windows, i);
    PartitionedRemoveAt(s.windows, i);
    FocusFollowsRemoval(s.windows, i, s.focus);
    assert !HasFullscreen(s.windows) ==> !HasFullscreen(rest) by {
      assert forall k :: 0 <= k < |rest| ==> rest[k] == s.windows[if k < i then k else k + 1];
    }
    s.(windows := rest, focus := FocusAfterRemove(s.focus, i))
  }

  /**
   * `focus_window`: None clears the focus and nothing else; an unmanaged id
   * changes nothing; a fullscreen record changes nothing; any other record
   * is focused, every fullscreen flag is cleared, and a minimised one is
   * taken out of the ledger and shown.
   */
  function Focused(s: WmState, window: Option<Window>): (r: WmState)
    requires WellFormed(s)
    ensures WellFormed(r) && r.screen == s.screen
    ensures FlagsOnly(s.windows, r.windows) && Ids(r.windows) == Ids(s.windows)
    ensures !HasFullscreen(s.windows) ==> !HasFullscreen(r.windows)
    ensures window.None? ==> r == s.(focus := None)
    ensures window.Some? && window.value in Ids(s.windows) &&
            !s.windows[IndexOf(Ids(s.windows), window.value).value].fullscreen ==>
              r.focus == IndexOf(Ids(s.windows), window.value) && !HasFullscreen(r.windows)
  {
    match window
    case None => s.(focus := None)
    case Some(w) =>
      match IndexOf(Ids(s.windows), w)
      case None => s
      case Some(i) =>
        if s.windows[i].fullscreen then s
        else
          var t := Cleared(s.(focus := Some(i)));
          if s.windows[i].minimised then RemoveMinimised(t, w) else t
  }

  /**
   * `cycle_focus`: the focus moves as `CycledFocus` says; the newly focused
   * id is taken out of the ledger (shown again); every fullscreen flag is
   * cleared, and the store is retiled when there was one.
   */
  function Cycled(s: WmState, dir: Direction): (r: WmState)
    requires WellFormed(s)
    ensures WellFormed(r) && r.screen == s.screen && r.focus == CycledFocus(s.focus, |s.windows|, dir)
    ensures |r.windows| == |s.windows| && Ids(r.windows) == Ids(s.windows) && !HasFullscreen(r.windows)
  {
    var f := CycledFocus(s.focus, |s.windows|, dir);
    var t := s.(focus := f);
    var u := match f case None => t case Some(index) => RemoveMinimised(t, t.windows[index].window);
    var c := Cleared(u);
    if HasFullscreen(u.windows) then Update(c) else c
  }

  /** `resize_screen`: the new screen, then the geometry update. */
  function Resized(s: WmState, screen: Screen): (r: WmState)
    requires WellFormed(s)
    ensures WellFormed(r) && r.screen == screen && r.focus == s.focus && r.ledger == s.ledger
    ensures Ids(r.windows) == Ids(s.windows)
  {
    Update(s.(screen := screen))
  }

  /**
   * `swap_with_master`: every fullscreen flag cleared first; then, for a
   * managed Tile with a shown Tile as master, a minimised w is taken out of
   * the ledger, w trades places with the master, the store is retiled and w
   * is focused. An unknown id or a Float changes nothing more.
   */
  function SwappedWithMaster(s: WmState, w: Window): (r: WmState)
    requires WellFormed(s)
    ensures WellFormed(r) && r.screen == s.screen && !HasFullscreen(r.windows)
    ensures multiset(Ids(r.windows)) == multiset(Ids(s.windows))
  {
    var c := Cleared(s);
    match IndexOf(Ids(c.windows), w)
    case None => c
    case Some(wi) =>
      if c.windows[wi].mode != Tile then c
      else
        match FirstWhere(c.windows, IsTiled)
        case None => c
        case Some(mi) => MasterSwapped(c, mi, wi)
  }

  /** The Tile at `wi` (shown again if minimised) trades places with the master at `mi`, then retiling and focus. */
  function MasterSwapped(c: WmState, mi: nat, wi: nat): (r: WmState)
    requires WellFormed(c) && !HasFullscreen(c.windows) && mi < |c.windows| && wi < |c.windows|
    requires IsTiled(c.windows[mi]) && c.windows[wi].mode == Tile
    ensures WellFormed(r) && r.screen == c.screen && !HasFullscreen(r.windows)
    ensures multiset(Ids(r.windows)) == multiset(Ids(c.windows))
  {
    var w := c.windows[wi].window;
    var u := if c.windows[wi].minimised then RemoveMinimised(c, w) else c;
    var sw := TradedPlaces(u, mi, wi);
    Focused(Update(sw), Some(w))
  }

  /**
   * The neighbour `swap_windows` takes from the focused position `index`:
   * `get_next_tile_index(index, index)` or `get_prev_tile_index`, which stop
   * at the nearest other Tile record in circular order, minimised or not.
   */
  function TileNeighbour(ws: seq<Record>, index: nat, dir: Direction): (r: Option<nat>)
    requires index < |ws|
    ensures r.None? <==> forall j :: 0 <= j < |ws| && j != index ==> ws[j].mode != Tile
    ensures r.Some? ==> r.value < |ws| && r.value != index && ws[r.value].mode == Tile
  {
    Neighbour(Where(ws, IsTile), index, dir)
  }

  /**
   * `swap_windows`: every fullscreen flag cleared; with two or more records
   * and a focused Tile, the focused record trades places with its Tile
   * neighbour (which becomes the focus, and the store is retiled), and the
   * record then focused is taken out of the ledger.
   */
  function SwappedWindows(s: WmState, dir: Direction): (r: WmState)
    requires WellFormed(s)
    ensures WellFormed(r) && r.screen == s.screen && !HasFullscreen(r.windows)
    ensures multiset(Ids(r.windows)) == multiset(Ids(s.windows))
  {
    var c := Cleared(s);
    if |c.windows| > 1 && c.focus.Some? && c.windows[c.focus.value].mode == Tile then
      var index := c.focus.value;
      var t := (match TileNeighbour(c.windows, index, dir)
                case None => c
                case Some(j) => Update(TradedPlaces(c.(focus := Some(j)), index, j)));
      RemoveMinimised(t, t.windows[t.focus.value].window)
    else c
  }

  /** `windows.swap(i, j)` of two Tile records. */
  function TradedPlaces(s: WmState, i: nat, j: nat): (r: WmState)
    requires WellFormed(s) && !HasFullscreen(s.windows) && i < |s.windows| && j < |s.windows|
    requires s.windows[i].mode == Tile && s.windows[j].mode == Tile
    ensures WellFormed(r) && !HasFullscreen(r.windows) && r.screen == s.screen && r.ledger == s.ledger
    ensures r.windows == Swap(s.windows, i, j) && r.focus == s.focus
    ensures Ids(r.windows) == Swap(Ids(s.windows), i, j) && multiset(Ids(r.windows)) == multiset(Ids(s.windows))
  {
    var sw := Swap(s.windows, i, j);
    IdsSwap(s.windows, i, j);
    DistinctSwap(Ids(s.windows), i, j);
    SwapPermutes(Ids(s.windows), i, j);
    PartitionedSwapTiles(s.windows, i, j);
    assert !HasFullscreen(sw) by {
      assert forall k :: 0 <= k < |sw| ==> sw[k].fullscreen == s.windows[if k == i then j else if k == j then i else k].fullscreen;
    }
    s.(windows := sw)
  }

  /** The info `toggle_floating` re-adds w with: its saved geometry, the other mode, not fullscreen. */
  function ToggledInfo(rec: Record): (info: Info)
    ensures info.window == rec.window && info.geometry == rec.savedGeometry && info.mode != rec.mode && !info.fullscreen
  {
    Info(rec.window, rec.savedGeometry, if rec.mode == Tile then Float else Tile, false)
  }

  /**
   * `toggle_floating`: for a fullscreen record, `remove_window` then
   * `add_window` with `ToggledInfo`. Otherwise a minimised w is taken out of
   * the ledger, the fullscreen and focused ids are remembered, w is removed
   * and re-added, the remembered focus restored, the remembered fullscreen
   * id made fullscreen again, and the store retiled.
   */
  function FloatToggled(s: WmState, w: Window): (r: WmState)
    requires WellFormed(s)
    ensures WellFormed(r) && r.screen == s.screen
    ensures multiset(Ids(r.windows)) == multiset(Ids(s.windows))
  {
    match IndexOf(Ids(s.windows), w)
    case None => s
    case Some(i) =>
      var rec := s.windows[i];
      var info := ToggledInfo(rec);
      if rec.fullscreen then
        ReAddedIds(s, w, info);
        Added(Removed(s, w), info)
      else
        var s1 := if rec.minimised then RemoveMinimised(s, w) else s;
        ReAddedIds(s1, w, info);
        Restored(Added(Removed(s1, w), info), FocusedOf(s1.windows, s1.focus), FullscreenWindow(s1.windows))
  }

  /**
   * The end of `toggle_floating` for a record that is not fullscreen: the
   * remembered focus restored, the remembered fullscreen id made fullscreen
   * again, and the store retiled.
   */
  function Restored(s2: WmState, focused: Option<Window>, fsw: Option<Window>): (r: WmState)
    requires WellFormed(s2) && !HasFullscreen(s2.windows)
    ensures WellFormed(r) && r.screen == s2.screen && Ids(r.windows) == Ids(s2.windows)
  {
    var s3 := Focused(s2, focused);
    var s4 := match fsw case None => s3 case Some(f) => Reflagged(s3, f, true);
    Update(s4)
  }

  /** Removing w and adding it again keeps the ids up to order. */
  lemma ReAddedIds(s: WmState, w: Window, info: Info)
    requires WellFormed(s) && w in Ids(s.windows) && info.window == w
    ensures w !in Ids(Removed(s, w).windows)
    ensures multiset(Ids(Added(Removed(s, w), info).windows)) == multiset(Ids(s.windows))
  {
    var i := IndexOf(Ids(s.windows), w).value;
    DistinctRemoveAt(Ids(s.windows), i);
  }

  /**
   * `set_window_geometry`: for a managed Float, a minimised one is taken out
   * of the ledger, and both its geometry and its saved geometry become `g`;
   * an unknown id or a Tile changes nothing.
   */
  function GeometrySet(s: WmState, w: Window, g: Geometry): (r: WmState)
    requires WellFormed(s)
    ensures WellFormed(r) && r.screen == s.screen && r.focus == s.focus && Ids(r.windows) == Ids(s.windows)
  {
    match IndexOf(Ids(s.windows), w)
    case None => s
    case Some(i) =>
      if s.windows[i].mode == Tile then s
      else
        var s1 := if s.windows[i].minimised then RemoveMinimised(s, w) else s;
        var ws := s1.windows[i := s1.windows[i].(savedGeometry := g, geometry := g)];
        IdsUpdate(s1.windows, i, ws[i]);
        assert forall k :: 0 <= k < |ws| ==> ws[k].mode == s1.windows[k].mode && ws[k].fullscreen == s1.windows[k].fullscreen;
        s1.(windows := ws)
  }

  /**
   * `toggle_minimised` of a managed id: its fullscreen flag is cleared; then
   * an id in the ledger is taken out of it and shown, and any other is
   * minimised and appended to the ledger, losing the focus if it had it;
   * finally the store is retiled.
   */
  function MinimisedToggled(s: WmState, w: Window): (r: WmState)
    requires WellFormed(s)
    ensures WellFormed(r) && r.screen == s.screen && Ids(r.windows) == Ids(s.windows)
  {
    match IndexOf(Ids(s.windows), w)
    case None => s
    case Some(i) => Update(MinimisedFlipped(s, i))
  }

  /**
   * The flag steps of `toggle_minimised` on the record at `i`: while the
   * ledger agrees with the flags, only that record changes, losing its
   * fullscreen flag and flipping its minimised one, and the ledger and the
   * focus follow.
   */
  function MinimisedFlipped(s: WmState, i: nat): (r: WmState)
    requires WellFormed(s) && i < |s.windows|
    ensures WellFormed(r) && r.screen == s.screen && Ids(r.windows) == Ids(s.windows)
    ensures LedgerAgrees(s.windows, s.ledger) ==>
      var w := s.windows[i].window;
      var was := s.windows[i].minimised;
      r.windows == s.windows[i := s.windows[i].(fullscreen := false, minimised := !was)] &&
      r.ledger == (if was then Unlisted(s.ledger, w) else s.ledger + [w]) &&
      r.focus == (if !was && s.focus == Some(i) then None else s.focus) &&
      LedgerAgrees(r.windows, r.ledger)
  {
    var w := s.windows[i].window;
    var s1 := Reflagged(s, w, false);
    var s2 := if w in s1.ledger then RemoveMinimised(s1, w)
              else SetMinimised(if s1.focus == Some(i) then s1.(focus := None) else s1, w);
    assert LedgerAgrees(s.windows, s.ledger) ==> LedgerAgrees(s2.windows, s2.ledger) by {
      if LedgerAgrees(s.windows, s.ledger) {
        FullscreenFlagsKeepLedger(s.windows, s1.windows, s.ledger);
        if w in s1.ledger {
          UnlistAgrees(s1, w);
        } else {
          ListAgrees(if s1.focus == Some(i) then s1.(focus := None) else s1, w);
        }
      }
    }
    var was := s.windows[i].minimised;
    assert LedgerAgrees(s.windows, s.ledger) ==>
      s2.windows == s.windows[i := s.windows[i].(fullscreen := false, minimised := !was)] &&
      s2.ledger == (if was then Unlisted(s.ledger, w) else s.ledger + [w]) &&
      s2.focus == (if !was && s.focus == Some(i) then None else s.focus) by {
      if LedgerAgrees(s.windows, s.ledger) {
        MinimisedToggledStep(s, i);
      }
    }
    s2
  }

  /**
   * `toggle_fullscreen` of a managed id: a minimised w is taken out of the
   * ledger; with no fullscreen record, w is focused and made fullscreen;
   * otherwise w's flag is cleared and, unless w was the fullscreen one, w
   * is focused and made fullscreen; finally the store is retiled.
   */
  function FullscreenToggled(s: WmState, w: Window): (r: WmState)
    requires WellFormed(s)
    ensures WellFormed(r) && r.screen == s.screen && Ids(r.windows) == Ids(s.windows)
  {
    match IndexOf(Ids(s.windows), w)
    case None => s
    case Some(i) =>
      var s1 := if s.windows[i].minimised then RemoveMinimised(s, w) else s;
      Update(FullscreenSwitched(s1, w))
  }

  /**
   * The flag changes of `toggle_fullscreen`: with no fullscreen record, w is
   * focused and made fullscreen; otherwise w's flag is cleared and, unless w
   * was the fullscreen one, w is focused and made fullscreen.
   */
  function FullscreenSwitched(s: WmState, w: Window): (r: WmState)
    requires WellFormed(s) && w in Ids(s.windows)
    ensures WellFormed(r) && r.screen == s.screen && Ids(r.windows) == Ids(s.windows)
  {
    match LastFullscreen(s.windows)
    case None => Reflagged(Focused(s, Some(w)), w, true)
    case Some(full) =>
      var c := Reflagged(s, w, false);
      if full.window != w then Reflagged(Focused(c, Some(w)), w, true) else c
  }

  // ---------------------------------------------------------------------------
  // Queries
  // ---------------------------------------------------------------------------

  /** `get_master_window`: the first shown Tile (`get_master_index`). */
  function MasterWindow(ws: seq<Record>): (r: Option<Window>)
    ensures r.Some? <==> exists k :: 0 <= k < |ws| && IsTiled(ws[k])
    ensures r.Some? ==> exists m :: 0 <= m < |ws| && IsTiled(ws[m]) && ws[m].window == r.value &&
                                    forall k :: 0 <= k < m ==> !IsTiled(ws[k])
  {
    match FirstWhere(ws, IsTiled)
    case None => None
    case Some(m) =>
      assert forall k :: 0 <= k < m ==> !Where(ws, IsTiled)[k];
      Some(ws[m].window)
  }

  /** `get_fullscreen_window`: the id of the last fullscreen record. */
  function FullscreenWindow(ws: seq<Record>): (r: Option<Window>)
    ensures r.Some? <==> HasFullscreen(ws)
    ensures AtMostOneFullscreen(ws) ==> forall k :: 0 <= k < |ws| && ws[k].fullscreen ==> r == Some(ws[k].window)
  {
    assert AtMostOneFullscreen(ws) ==> forall k :: 0 <= k < |ws| && ws[k].fullscreen ==> LastFullscreen(ws) == Some(ws[k]) by {
      forall k | AtMostOneFullscreen(ws) && 0 <= k < |ws| && ws[k].fullscreen
        ensures LastFullscreen(ws) == Some(ws[k])
      {
        LastFullscreenUnique(ws, k);
      }
    }
    match LastFullscreen(ws)
    case None => None
    case Some(f) => Some(f.window)
  }

  // ---------------------------------------------------------------------------
  // What the operations promise
  // ---------------------------------------------------------------------------

  /** `remove_minimised_window` keeps the ledger in agreement with the flags. */
  lemma UnlistAgrees(s: WmState, w: Window)
    requires Distinct(Ids(s.windows)) && LedgerAgrees(s.windows, s.ledger)
    ensures var r := RemoveMinimised(s, w);
      LedgerAgrees(r.windows, r.ledger) && forall k :: 0 <= k < |r.windows| && r.windows[k].window == w ==> !r.windows[k].minimised
  {
    var r := RemoveMinimised(s, w);
    UnlistedRemoves(s.ledger, w);
    forall k | 0 <= k < |r.windows|
      ensures r.windows[k].minimised <==> r.windows[k].window in r.ledger
    {
      assert Ids(r.windows)[k] == Ids(s.windows)[k];
    }
  }

  /** `set_minimised_window` of a managed id outside the ledger keeps the ledger in agreement with the flags. */
  lemma ListAgrees(s: WmState, w: Window)
    requires Distinct(Ids(s.windows)) && LedgerAgrees(s.windows, s.ledger) && w in Ids(s.windows) && w !in s.ledger
    ensures var r := SetMinimised(s, w);
      LedgerAgrees(r.windows, r.ledger) && r.ledger == s.ledger + [w]
  {
    var r := SetMinimised(s, w);
    DistinctAppend(s.ledger, w);
    forall k | 0 <= k < |r.windows|
      ensures r.windows[k].minimised <==> r.windows[k].window in r.ledger
    {
      assert Ids(r.windows)[k] == Ids(s.windows)[k];
    }
  }

  /** A new shown record whose id is not yet stored keeps the ledger in agreement with the flags. */
  lemma InsertAgrees(ws: seq<Record>, ledger: seq<Window>, at: nat, x: Record)
    requires LedgerAgrees(ws, ledger) && at <= |ws| && !x.minimised && x.window !in Ids(ws)
    ensures LedgerAgrees(InsertAt(ws, at, x), ledger)
  {
    var r := InsertAt(ws, at, x);
    IdsInsertAt(ws, at, x);
    forall k | 0 <= k < |r|
      ensures r[k].minimised <==> r[k].window in ledger
    {
      if k < at {
        assert r[k] == ws[k];
      } else if k > at {
        assert r[k] == ws[k - 1];
      }
    }
  }

  /** The inserted record, focused, in a store without fullscreen records. */
  lemma InsertedFacts(c: WmState, info: Info)
    requires !HasFullscreen(c.windows) && info.window !in Ids(c.windows)
    ensures var t := Inserted(c, info);
      var at := AddedAt(c.windows, info);
      t.windows[at] == FromInfo(info) && FocusedOf(t.windows, t.focus) == Some(info.window) &&
      FullscreenFocused(t) && (LedgerAgrees(c.windows, c.ledger) ==> LedgerAgrees(t.windows, t.ledger))
  {
    var at := AddedAt(c.windows, info);
    var t := Inserted(c, info);
    forall k | 0 <= k < |t.windows| && k != at
      ensures !t.windows[k].fullscreen
    {
      if k < at {
        assert t.windows[k] == c.windows[k];
      } else {
        assert t.windows[k] == c.windows[k - 1];
      }
    }
    if LedgerAgrees(c.windows, c.ledger) {
      InsertAgrees(c.windows, c.ledger, at, FromInfo(info));
    }
  }

  /**
   * `add_window` of an unmanaged id stores the client's record (not
   * minimised, both geometries the client's for a Float) at `AddedAt` and
   * focuses it; a fullscreen record is then the focused one, and the ledger
   * still agrees with the flags.
   */
  lemma AddedRecord(s: WmState, info: Info)
    requires WellFormed(s) && info.window !in Ids(s.windows)
    ensures var r := Added(s, info);
      var at := AddedAt(s.windows, info);
      r.windows[at] == FromInfo(info).(geometry := r.windows[at].geometry) &&
      (info.mode == Float ==> r.windows[at] == FromInfo(info)) &&
      FocusedOf(r.windows, r.focus) == Some(info.window) && FullscreenFocused(r) &&
      (LedgerAgrees(s.windows, s.ledger) ==> LedgerAgrees(r.windows, r.ledger))
  {
    var c := Cleared(s);
    FlagsKeepShape(s.windows, c.windows);
    NoFullscreenKeepsLedger(s.windows, s.ledger);
    InsertedFacts(c, info);
    var t := Inserted(c, info);
    if info.mode == Tile {
      GeometryOnly(t.windows, Update(t).windows, t.ledger);
    }
  }

  /** Dropping a record keeps "a fullscreen record is the focused one". */
  lemma DroppedFocus(s: WmState, i: nat)
    requires WellFormed(s) && i < |s.windows| && FullscreenFocused(s)
    ensures FullscreenFocused(Dropped(s, i))
  {
    var t := Dropped(s, i);
    forall k | 0 <= k < |t.windows| && t.windows[k].fullscreen
      ensures t.focus == Some(k)
    {
      if k < i {
        assert t.windows[k] == s.windows[k];
      } else {
        assert t.windows[k] == s.windows[k + 1];
      }
    }
  }

  /** Dropping a shown record keeps the ledger in agreement with the flags. */
  lemma DroppedAgrees(s: WmState, i: nat)
    requires WellFormed(s) && i < |s.windows| && LedgerAgrees(s.windows, s.ledger) && !s.windows[i].minimised
    ensures LedgerAgrees(Dropped(s, i).windows, s.ledger)
  {
    var t := Dropped(s, i);
    forall v | v in t.ledger
      ensures v in Ids(t.windows)
    {
      var k :| 0 <= k < |s.windows| && Ids(s.windows)[k] == v;
      assert k != i;
      if k < i {
        assert Ids(t.windows)[k] == v;
      } else {
        assert Ids(t.windows)[k - 1] == v;
      }
    }
    forall k | 0 <= k < |t.windows|
      ensures t.windows[k].minimised <==> t.windows[k].window in t.ledger
    {
      if k < i {
        assert t.windows[k] == s.windows[k];
      } else {
        assert t.windows[k] == s.windows[k + 1];
      }
    }
  }

  /**
   * `remove_window` keeps "a fullscreen record is the focused one", and
   * keeps the ledger in agreement when the removed record was shown.
   */
  lemma RemovedInvariants(s: WmState, w: Window)
    requires WellFormed(s) && w in Ids(s.windows)
    ensures var r := Removed(s, w);
      var i := IndexOf(Ids(s.windows), w).value;
      (FullscreenFocused(s) ==> FullscreenFocused(r)) &&
      (LedgerAgrees(s.windows, s.ledger) && !s.windows[i].minimised ==> LedgerAgrees(r.windows, r.ledger))
  {
    var i := IndexOf(Ids(s.windows), w).value;
    var t := Dropped(s, i);
    var purged := if s.windows[i].minimised then Reflagged(t, w, false) else t;
    if FullscreenFocused(s) {
      DroppedFocus(s, i);
    }
    if LedgerAgrees(s.windows, s.ledger) && !s.windows[i].minimised {
      DroppedAgrees(s, i);
    }
    if s.windows[i].mode == Tile {
      GeometryOnly(purged.windows, Update(purged).windows, purged.ledger);
    }
  }

  /**
   * The stale ledger of `remove_window`: a minimised record is removed, but
   * its id stays in `minimised_windows` (the flag reset targets the removed
   * id), so `is_minimised` still holds for a window that is no longer managed.
   */
  lemma RemovedStaleLedger(s: WmState, w: Window)
    requires WellFormed(s) && LedgerAgrees(s.windows, s.ledger) && w in Ids(s.windows)
    requires s.windows[IndexOf(Ids(s.windows), w).value].minimised
    ensures var r := Removed(s, w);
      w in r.ledger && w !in Ids(r.windows) && !LedgerAgrees(r.windows, r.ledger)
  {
    var i := IndexOf(Ids(s.windows), w).value;
    DistinctRemoveAt(Ids(s.windows), i);
    assert w == Ids(s.windows)[i];
  }

  /**
   * `focus_window(Some(w))` of a managed id: a fullscreen w changes nothing;
   * any other w becomes the focus, every fullscreen flag is cleared, w is
   * shown and taken out of the ledger, and every other record keeps all but
   * its fullscreen flag.
   */
  lemma FocusedOn(s: WmState, w: Window)
    requires WellFormed(s) && LedgerAgrees(s.windows, s.ledger) && w in Ids(s.windows)
    ensures var i := IndexOf(Ids(s.windows), w).value;
      var r := Focused(s, Some(w));
      (s.windows[i].fullscreen ==> r == s) &&
      (!s.windows[i].fullscreen ==>
        r.focus == Some(i) && FocusedOf(r.windows, r.focus) == Some(w) && !HasFullscreen(r.windows) &&
        !r.windows[i].minimised && r.ledger == Unlisted(s.ledger, w) && LedgerAgrees(r.windows, r.ledger) &&
        FullscreenFocused(r) &&
        forall k :: 0 <= k < |s.windows| && k != i ==> r.windows[k] == s.windows[k].(fullscreen := false))
  {
    var i := IndexOf(Ids(s.windows), w).value;
    if !s.windows[i].fullscreen {
      var t := Cleared(s.(focus := Some(i)));
      NoFullscreenKeepsLedger(s.windows, s.ledger);
      UnlistAgrees(t, w);
      assert Ids(s.windows)[i] == w;
      if !s.windows[i].minimised {
        assert w !in s.ledger;
      }
      forall k | 0 <= k < |s.windows| && k != i
        ensures t.windows[k].window != w
      {
        assert Ids(s.windows)[k] != Ids(s.windows)[i];
      }
    }
  }

  /**
   * The focus cleared by `focus_window(None)` leaves a fullscreen record
   * fullscreen: no window is focused any more, while the layout still
   * reports the fullscreen window as the focused one.
   */
  lemma FocusNoneKeepsFullscreen(s: WmState, k: nat)
    requires WellFormed(s) && k < |s.windows| && s.windows[k].fullscreen
    ensures var r := Focused(s, None);
      r.focus == None && r.windows == s.windows && !FullscreenFocused(r) &&
      WindowLayout(r.windows, r.focus).focusedWindow == Some(s.windows[k].window)
  {
    LayoutFullscreen(s.windows, None, k);
  }

  /**
   * `cycle_focus` shows the newly focused record and takes it out of the
   * ledger, keeps the ledger in agreement with the flags, and leaves no
   * fullscreen record.
   */
  lemma CycledInvariants(s: WmState, dir: Direction)
    requires WellFormed(s) && LedgerAgrees(s.windows, s.ledger)
    ensures var r := Cycled(s, dir);
      LedgerAgrees(r.windows, r.ledger) && FullscreenFocused(r) && FullscreenShown(r.windows) &&
      (r.focus.Some? ==> !r.windows[r.focus.value].minimised && r.ledger == Unlisted(s.ledger, s.windows[r.focus.value].window)) &&
      (r.focus.None? ==> r.ledger == s.ledger)
  {
    var f := CycledFocus(s.focus, |s.windows|, dir);
    var t := s.(focus := f);
    var u := match f case None => t case Some(index) => RemoveMinimised(t, t.windows[index].window);
    if f.Some? {
      UnlistAgrees(t, t.windows[f.value].window);
    }
    var c := Cleared(u);
    NoFullscreenKeepsLedger(u.windows, u.ledger);
    if HasFullscreen(u.windows) {
      GeometryOnly(c.windows, Update(c).windows, c.ledger);
    }
  }

  /** With the ledger in agreement, the record at `wi` shown again is the only change `remove_minimised_window` makes. */
  lemma UnminimisedOnly(c: WmState, wi: nat)
    requires WellFormed(c) && LedgerAgrees(c.windows, c.ledger) && wi < |c.windows|
    ensures var w := c.windows[wi].window;
      var u := if c.windows[wi].minimised then RemoveMinimised(c, w) else c;
      u.windows == c.windows[wi := c.windows[wi].(minimised := false)] && u.screen == c.screen && u.focus == c.focus
  {
    var w := c.windows[wi].window;
    var u := if c.windows[wi].minimised then RemoveMinimised(c, w) else c;
    assert Ids(c.windows)[wi] == w;
    assert !u.windows[wi].minimised;
    forall k | 0 <= k < |c.windows| && k != wi
      ensures u.windows[k] == c.windows[k]
    {
      assert Ids(c.windows)[k] != Ids(c.windows)[wi];
    }
  }

  /** After the trade inside `swap_with_master`, w sits at the master's old position, focused; only geometries differ from the plain swap. */
  lemma MasterSwappedShape(c: WmState, mi: nat, wi: nat)
    requires WellFormed(c) && !HasFullscreen(c.windows) && LedgerAgrees(c.windows, c.ledger)
    requires mi < |c.windows| && wi < |c.windows| && IsTiled(c.windows[mi]) && c.windows[wi].mode == Tile
    ensures var r := MasterSwapped(c, mi, wi);
      var sw := Swap(c.windows[wi := c.windows[wi].(minimised := false)], mi, wi);
      |r.windows| == |sw| && r.focus == Some(mi) && r.windows[mi].window == c.windows[wi].window &&
      forall k :: 0 <= k < |sw| ==> r.windows[k] == sw[k].(geometry := r.windows[k].geometry)
  {
    var w := c.windows[wi].window;
    UnminimisedOnly(c, wi);
    var u := if c.windows[wi].minimised then RemoveMinimised(c, w) else c;
    var t := TradedPlaces(u, mi, wi);
    var up := Update(t);
    assert t.windows[mi] == u.windows[wi];
    assert up.windows[mi].window == w && !up.windows[mi].minimised;
    FocusedShownAt(up, mi);
  }

  /** Without a fullscreen record, focusing a shown record only moves the focus to it. */
  lemma FocusedShownAt(s: WmState, i: nat)
    requires WellFormed(s) && !HasFullscreen(s.windows) && i < |s.windows| && !s.windows[i].minimised
    ensures Focused(s, Some(s.windows[i].window)) == s.(focus := Some(i))
  {
    RecordOf(s.windows, i);
    NoFullscreenClears(s.windows);
  }

  /**
   * Which shown Tile comes first after a Tile at `wi` (shown again) trades
   * places with the first shown Tile at `mi`: the one now at `mi` when `wi`
   * was at or after it, and the old master, now at `wi`, otherwise.
   */
  lemma TradedFirstTiled(cw: seq<Record>, mi: nat, wi: nat, rw: seq<Record>)
    requires FirstWhere(cw, IsTiled) == Some(mi) && wi < |cw| && cw[wi].mode == Tile
    requires var sw := Swap(cw[wi := cw[wi].(minimised := false)], mi, wi);
      |rw| == |sw| && forall k :: 0 <= k < |sw| ==> rw[k] == sw[k].(geometry := rw[k].geometry)
    ensures mi <= wi ==> MasterWindow(rw) == Some(rw[mi].window)
    ensures wi < mi ==> cw[wi].minimised && MasterWindow(rw) == Some(rw[wi].window)
  {
    var uw := cw[wi := cw[wi].(minimised := false)];
    if mi <= wi {
      FirstWhereIs(uw, IsTiled, mi);
      SwapKeepsFirst(uw, IsTiled, mi, wi, rw);
    } else {
      assert !Where(cw, IsTiled)[wi];
      FirstWhereIs(rw, IsTiled, wi);
    }
  }

  /**
   * The trade inside `swap_with_master`, with `mi` the first shown Tile:
   * w ends up focused; when w was at or after the master it becomes the
   * master, and when it was a minimised Tile before the master, the old
   * master stays the master (it only moves to w's old position).
   */
  lemma MasterSwappedMaster(c: WmState, mi: nat, wi: nat)
    requires WellFormed(c) && !HasFullscreen(c.windows) && LedgerAgrees(c.windows, c.ledger)
    requires mi < |c.windows| && wi < |c.windows| && FirstWhere(c.windows, IsTiled) == Some(mi)
    requires IsTiled(c.windows[mi]) && c.windows[wi].mode == Tile
    ensures var r := MasterSwapped(c, mi, wi);
      var w := c.windows[wi].window;
      FocusedOf(r.windows, r.focus) == Some(w) &&
      (mi <= wi ==> MasterWindow(r.windows) == Some(w)) &&
      (wi < mi ==> c.windows[wi].minimised && MasterWindow(r.windows) == Some(c.windows[mi].window) &&
                   c.windows[mi].window != w)
  {
    var r := MasterSwapped(c, mi, wi);
    MasterSwappedShape(c, mi, wi);
    TradedFirstTiled(c.windows, mi, wi, r.windows);
    if wi < mi {
      var sw := Swap(c.windows[wi := c.windows[wi].(minimised := false)], mi, wi);
      assert sw[wi] == c.windows[mi];
      assert r.windows[wi].window == c.windows[mi].window;
      assert Ids(c.windows)[wi] != Ids(c.windows)[mi];
    }
  }

  /**
   * `swap_with_master` of a shown Tile makes it the master and focuses it;
   * like every call, it leaves no fullscreen record.
   */
  lemma SwapWithMasterPromotes(s: WmState, w: Window)
    requires WellFormed(s) && LedgerAgrees(s.windows, s.ledger) && w in Ids(s.windows)
    ensures var r := SwappedWithMaster(s, w);
      var i := IndexOf(Ids(s.windows), w).value;
      !HasFullscreen(r.windows) &&
      (IsTiled(s.windows[i]) ==> MasterWindow(r.windows) == Some(w) && FocusedOf(r.windows, r.focus) == Some(w))
  {
    var i := IndexOf(Ids(s.windows), w).value;
    var c := Cleared(s);
    FlagsKeepShape(s.windows, c.windows);
    NoFullscreenKeepsLedger(s.windows, s.ledger);
    assert Where(c.windows, IsTiled) == Where(s.windows, IsTiled);
    if IsTiled(s.windows[i]) {
      assert Where(s.windows, IsTiled)[i];
      var mi := FirstWhere(c.windows, IsTiled).value;
      MasterSwappedMaster(c, mi, i);
    }
  }

  /**
   * `swap_with_master` of a minimised Tile that sits before the master
   * shows it again and focuses it, but the old master stays the master:
   * the swap moves the master back to w's old position, which comes first.
   */
  lemma MinimisedBeforeMaster(s: WmState, w: Window)
    requires WellFormed(s) && LedgerAgrees(s.windows, s.ledger) && w in Ids(s.windows)
    requires var i := IndexOf(Ids(s.windows), w).value;
      s.windows[i].mode == Tile && FirstWhere(s.windows, IsTiled).Some? && i < FirstWhere(s.windows, IsTiled).value
    ensures var r := SwappedWithMaster(s, w);
      s.windows[IndexOf(Ids(s.windows), w).value].minimised &&
      MasterWindow(r.windows) == MasterWindow(s.windows) && MasterWindow(r.windows) != Some(w) &&
      FocusedOf(r.windows, r.focus) == Some(w)
  {
    var i := IndexOf(Ids(s.windows), w).value;
    var c := Cleared(s);
    FlagsKeepShape(s.windows, c.windows);
    NoFullscreenKeepsLedger(s.windows, s.ledger);
    assert Where(c.windows, IsTiled) == Where(s.windows, IsTiled);
    var mi := FirstWhere(s.windows, IsTiled).value;
    assert FirstWhere(c.windows, IsTiled) == Some(mi);
    assert SwappedWithMaster(s, w) == MasterSwapped(c, mi, i);
    assert c.windows[mi].window == s.windows[mi].window;
    MasterSwappedMaster(c, mi, i);
  }

  /**
   * `swap_windows` swaps when there are two or more records and the focused
   * one is a Tile with a Tile neighbour in direction `dir`.
   */
  predicate SwapsWithNeighbour(s: WmState, dir: Direction)
  {
    |s.windows| > 1 && s.focus.Some? && s.focus.value < |s.windows| && s.windows[s.focus.value].mode == Tile &&
    TileNeighbour(s.windows, s.focus.value, dir).Some?
  }

  /**
   * `swap_windows` never changes which window is focused; when it swaps,
   * the focused window moves to its Tile neighbour's position, which becomes
   * the focus, and the two ids trade places; otherwise the ids and the focus
   * stay as they are.
   */
  lemma SwapWindowsFollows(s: WmState, dir: Direction)
    requires WellFormed(s)
    ensures var r := SwappedWindows(s, dir);
      FocusedOf(r.windows, r.focus) == FocusedOf(s.windows, s.focus) &&
      (SwapsWithNeighbour(s, dir) ==>
         var j := TileNeighbour(s.windows, s.focus.value, dir).value;
         r.focus == Some(j) && Ids(r.windows) == Swap(Ids(s.windows), s.focus.value, j)) &&
      (!SwapsWithNeighbour(s, dir) ==> Ids(r.windows) == Ids(s.windows) && r.focus == s.focus)
  {
    var c := Cleared(s);
    FlagsKeepShape(s.windows, c.windows);
    if |c.windows| > 1 && c.focus.Some? && c.windows[c.focus.value].mode == Tile {
      var index := c.focus.value;
      assert TileNeighbour(c.windows, index, dir) == TileNeighbour(s.windows, index, dir);
      match TileNeighbour(c.windows, index, dir)
      case None =>
      case Some(j) =>
        var t := Update(TradedPlaces(c.(focus := Some(j)), index, j));
        assert Ids(t.windows)[j] == Ids(s.windows)[index];
    }
  }

  /**
   * The neighbour scan of `swap_windows` tests the mode only: with a
   * minimised Tile right after the focused Tile, `swap_windows(Next)`
   * trades places with it, and the minimised record lands at the focused
   * position, still minimised.
   */
  lemma SwapWithMinimisedNeighbour(s: WmState, index: nat)
    requires WellFormed(s) && s.focus == Some(index) && index + 1 < |s.windows|
    requires s.windows[index].mode == Tile && s.windows[index + 1].mode == Tile && s.windows[index + 1].minimised
    ensures var r := SwappedWindows(s, Next);
      TileNeighbour(s.windows, index, Next) == Some(index + 1) &&
      r.windows[index].window == s.windows[index + 1].window && r.windows[index].minimised
  {
    var c := Cleared(s);
    FlagsKeepShape(s.windows, c.windows);
    assert TileNeighbour(c.windows, index, Next) == Some(index + 1);
    var t := Update(TradedPlaces(c.(focus := Some(index + 1)), index, index + 1));
    assert Ids(s.windows)[index] != Ids(s.windows)[index + 1];
    assert t.windows[index].window == s.windows[index + 1].window && t.windows[index].minimised;
    assert t.windows[t.focus.value].window == s.windows[index].window;
  }

  /** `focus_window` never minimises a record. */
  lemma FocusedShows(s: WmState, window: Option<Window>)
    requires WellFormed(s)
    ensures var r := Focused(s, window);
      forall k :: 0 <= k < |s.windows| && r.windows[k].minimised ==> s.windows[k].minimised
  {
  }

  /** Removing w and adding it again with a non-fullscreen info: the new record, focused, with no fullscreen record left. */
  lemma ReAddedRecord(s1: WmState, w: Window, info: Info)
    requires WellFormed(s1) && w in Ids(s1.windows) && info.window == w && !info.fullscreen
    ensures var s2 := Added(Removed(s1, w), info);
      |s2.windows| == |s1.windows| && !HasFullscreen(s2.windows) && FocusedOf(s2.windows, s2.focus) == Some(w) &&
      (info.mode == Float ==> s2.windows[|s2.windows| - 1].window == w) &&
      forall k :: 0 <= k < |s2.windows| && s2.windows[k].window == w ==>
        s2.windows[k] == FromInfo(info).(geometry := s2.windows[k].geometry) &&
        (info.mode == Float ==> s2.windows[k] == FromInfo(info))
  {
    var t := Removed(s1, w);
    ReAddedIds(s1, w, info);
    AddedRecord(t, info);
    var s2 := Added(t, info);
    var at := AddedAt(t.windows, info);
    assert Ids(s2.windows)[at] == w;
    OnlyAt(s2.windows, at);
  }

  /** With distinct ids, `at` is the only position holding the id of the record at `at`. */
  lemma OnlyAt(ws: seq<Record>, at: nat)
    requires Distinct(Ids(ws)) && at < |ws|
    ensures forall k :: 0 <= k < |ws| && ws[k].window == ws[at].window ==> k == at
  {
    forall k | 0 <= k < |ws| && ws[k].window == ws[at].window
      ensures k == at
    {
      assert Ids(ws)[k] == Ids(ws)[at];
    }
  }

  /** Two stores with the same ids and the same fullscreen flags report the same fullscreen window. */
  lemma FullscreenWindowSame(a: seq<Record>, b: seq<Record>)
    requires AtMostOneFullscreen(a) && AtMostOneFullscreen(b) && |a| == |b|
    requires forall k :: 0 <= k < |a| ==> a[k].fullscreen == b[k].fullscreen && a[k].window == b[k].window
    ensures FullscreenWindow(a) == FullscreenWindow(b)
  {
    if HasFullscreen(a) {
      var k :| 0 <= k < |a| && a[k].fullscreen;
      assert b[k].fullscreen;
    }
  }

  /** The id that `toggle_floating` makes fullscreen again is a managed one, and not the toggled one. */
  lemma OtherFullscreen(s1: WmState, w: Window)
    requires WellFormed(s1) && w in Ids(s1.windows) && !s1.windows[IndexOf(Ids(s1.windows), w).value].fullscreen
    ensures FullscreenWindow(s1.windows) != Some(w)
    ensures FullscreenWindow(s1.windows).Some? ==> FullscreenWindow(s1.windows).value in Ids(s1.windows)
  {
    if HasFullscreen(s1.windows) {
      var k :| 0 <= k < |s1.windows| && s1.windows[k].fullscreen;
      var i := IndexOf(Ids(s1.windows), w).value;
      assert Ids(s1.windows)[k] == s1.windows[k].window;
      assert Ids(s1.windows)[k] != Ids(s1.windows)[i];
    }
  }

  /** The flag steps at the end of `toggle_floating`: flags only, nothing minimised, exactly the remembered id fullscreen. */
  lemma RefocusedFlags(s2: WmState, focused: Option<Window>, fsw: Option<Window>)
    requires WellFormed(s2) && !HasFullscreen(s2.windows)
    ensures var s3 := Focused(s2, focused);
      var s4 := match fsw case None => s3 case Some(f) => Reflagged(s3, f, true);
      FlagsOnly(s2.windows, s4.windows) && s4.screen == s2.screen &&
      forall k :: 0 <= k < |s2.windows| ==>
        (s4.windows[k].minimised ==> s2.windows[k].minimised) &&
        (s4.windows[k].fullscreen <==> fsw == Some(s2.windows[k].window))
  {
    var s3 := Focused(s2, focused);
    FocusedShows(s2, focused);
    if fsw.Some? {
      WithFullscreenOnly(s3.windows, fsw.value);
    }
  }

  /**
   * The end of `toggle_floating` changes no id, mode or saved geometry,
   * minimises nothing, makes exactly the remembered id fullscreen, and
   * leaves the geometry of every other Float alone.
   */
  lemma RestoredRecords(s2: WmState, focused: Option<Window>, fsw: Option<Window>)
    requires WellFormed(s2) && !HasFullscreen(s2.windows)
    ensures RestoredFrom(s2.windows, Restored(s2, focused, fsw).windows, fsw)
  {
    RefocusedFlags(s2, focused, fsw);
    var s3 := Focused(s2, focused);
    var s4 := match fsw case None => s3 case Some(f) => Reflagged(s3, f, true);
    assert Restored(s2, focused, fsw) == Update(s4);
    UpdateKeepsFloats(s4);
    RestoredShape(s2.windows, s4.windows, Update(s4).windows, fsw);
  }

  /**
   * What the end of `toggle_floating` leaves of each record of `a` in `c`:
   * id, mode and saved geometry; nothing newly minimised; exactly the
   * remembered id fullscreen; and every other Float at its geometry.
   */
  predicate RestoredFrom(a: seq<Record>, c: seq<Record>, fsw: Option<Window>)
  {
    |c| == |a| &&
    forall k :: 0 <= k < |a| ==>
      c[k].window == a[k].window && c[k].mode == a[k].mode && c[k].savedGeometry == a[k].savedGeometry &&
      (c[k].minimised ==> a[k].minimised) &&
      (c[k].fullscreen <==> fsw == Some(a[k].window)) &&
      (a[k].mode == Float && fsw != Some(a[k].window) ==> c[k].geometry == a[k].geometry)
  }

  /** The flag steps followed by an update that only moves tiles give `RestoredFrom`. */
  lemma RestoredShape(a: seq<Record>, b: seq<Record>, c: seq<Record>, fsw: Option<Window>)
    requires FlagsOnly(a, b)
    requires forall k :: 0 <= k < |a| ==> (b[k].minimised ==> a[k].minimised) && (b[k].fullscreen <==> fsw == Some(a[k].window))
    requires |c| == |b| && forall k :: 0 <= k < |b| ==> c[k] == b[k].(geometry := c[k].geometry)
    requires forall k :: 0 <= k < |b| && b[k].mode == Float && !b[k].fullscreen ==> c[k] == b[k]
    ensures RestoredFrom(a, c, fsw)
  {
  }

  /** The update leaves every Float that is not fullscreen as it is. */
  lemma UpdateKeepsFloats(s: WmState)
    ensures forall k :: 0 <= k < |s.windows| && s.windows[k].mode == Float && !s.windows[k].fullscreen ==>
      Update(s).windows[k] == s.windows[k]
  {
    forall k | 0 <= k < |s.windows| && s.windows[k].mode == Float && !s.windows[k].fullscreen
      ensures Update(s).windows[k] == s.windows[k]
    {
      RetiledAt(s.windows, s.screen, k);
    }
  }

  /** The end of `toggle_floating` reports the remembered id as the fullscreen window. */
  lemma RestoredFullscreen(s2: WmState, focused: Option<Window>, fsw: Option<Window>)
    requires WellFormed(s2) && !HasFullscreen(s2.windows) && (fsw.Some? ==> fsw.value in Ids(s2.windows))
    ensures FullscreenWindow(Restored(s2, focused, fsw).windows) == fsw
  {
    var r := Restored(s2, focused, fsw);
    RestoredRecords(s2, focused, fsw);
    if fsw.Some? {
      var k :| 0 <= k < |s2.windows| && Ids(s2.windows)[k] == fsw.value;
      assert r.windows[k].fullscreen;
    } else {
      assert !HasFullscreen(r.windows);
    }
  }

  /** The end of `toggle_floating` focuses the remembered id again, or nothing when none was focused. */
  lemma RestoredFocus(s2: WmState, focused: Option<Window>, fsw: Option<Window>)
    requires WellFormed(s2) && !HasFullscreen(s2.windows)
    requires focused.Some? ==> focused.value in Ids(s2.windows)
    ensures var r := Restored(s2, focused, fsw);
      FocusedOf(r.windows, r.focus) == focused
  {
    if focused.Some? {
      var j := IndexOf(Ids(s2.windows), focused.value).value;
      assert !s2.windows[j].fullscreen;
    }
  }

  /**
   * The record `toggle_floating` leaves for `rec`: same id, the other mode,
   * the same saved geometry, shown, not fullscreen, and at its saved
   * geometry when it now floats.
   */
  predicate FlippedFrom(x: Record, rec: Record)
  {
    x.window == rec.window && x.mode != rec.mode && x.savedGeometry == rec.savedGeometry &&
    !x.minimised && !x.fullscreen && (rec.mode == Tile ==> x.geometry == rec.savedGeometry)
  }

  /** The record of w in a store with distinct ids is the one `IndexOf` finds. */
  lemma RecordOf(ws: seq<Record>, k: nat)
    requires Distinct(Ids(ws)) && k < |ws|
    ensures IndexOf(Ids(ws), ws[k].window) == Some(k)
  {
    assert Ids(ws)[k] == ws[k].window;
    DistinctIndexOf(Ids(ws), k);
  }

  /** `toggle_floating` of the fullscreen record: removed and added again with `ToggledInfo`. */
  lemma FullToggledRecord(s: WmState, i: nat)
    requires WellFormed(s) && i < |s.windows| && s.windows[i].fullscreen
    ensures var w := s.windows[i].window;
      w in Ids(s.windows) &&
      var r := Added(Removed(s, w), ToggledInfo(s.windows[i]));
      var j := IndexOf(Ids(r.windows), w);
      |r.windows| == |s.windows| && j.Some? && FlippedFrom(r.windows[j.value], s.windows[i]) &&
      (s.windows[i].mode == Tile ==> j.value == |r.windows| - 1) &&
      !HasFullscreen(r.windows) && FocusedOf(r.windows, r.focus) == Some(w)
  {
    var w := s.windows[i].window;
    var info := ToggledInfo(s.windows[i]);
    assert Ids(s.windows)[i] == w;
    ReAddedRecord(s, w, info);
    var r := Added(Removed(s, w), info);
    var j := IndexOf(Ids(r.windows), w).value;
    assert r.windows[j].window == w;
    if s.windows[i].mode == Tile {
      RecordOf(r.windows, |r.windows| - 1);
    }
  }

  /** Re-adding w with a non-fullscreen info and then restoring focus and another fullscreen id. */
  lemma ReAddedRestored(s1: WmState, rec: Record, focused: Option<Window>, fsw: Option<Window>)
    requires WellFormed(s1) && rec.window in Ids(s1.windows) && fsw != Some(rec.window)
    ensures var w := rec.window;
      var r := Restored(Added(Removed(s1, w), ToggledInfo(rec)), focused, fsw);
      var j := IndexOf(Ids(r.windows), w);
      |r.windows| == |s1.windows| && j.Some? && FlippedFrom(r.windows[j.value], rec) &&
      (rec.mode == Tile ==> j.value == |r.windows| - 1)
  {
    var w := rec.window;
    var info := ToggledInfo(rec);
    ReAddedRecord(s1, w, info);
    var s2 := Added(Removed(s1, w), info);
    var r := Restored(s2, focused, fsw);
    RestoredRecords(s2, focused, fsw);
    var j := IndexOf(Ids(r.windows), w).value;
    assert r.windows[j].window == w && s2.windows[j].window == w;
    if info.mode == Float {
      RecordOf(r.windows, |r.windows| - 1);
    }
  }

  /** `toggle_floating` of a record that is not fullscreen. */
  lemma ShownToggledRecord(s: WmState, i: nat)
    requires WellFormed(s) && i < |s.windows| && !s.windows[i].fullscreen
    ensures var rec := s.windows[i];
      var w := rec.window;
      var s1 := if rec.minimised then RemoveMinimised(s, w) else s;
      WellFormed(s1) && w in Ids(s1.windows) &&
      var r := Restored(Added(Removed(s1, w), ToggledInfo(rec)), FocusedOf(s1.windows, s1.focus), FullscreenWindow(s1.windows));
      var j := IndexOf(Ids(r.windows), w);
      |r.windows| == |s.windows| && j.Some? && FlippedFrom(r.windows[j.value], rec) &&
      (rec.mode == Tile ==> j.value == |r.windows| - 1)
  {
    var rec := s.windows[i];
    var w := rec.window;
    var s1 := if rec.minimised then RemoveMinimised(s, w) else s;
    ShownFirst(s, i);
    OtherFullscreen(s1, w);
    ReAddedRestored(s1, rec, FocusedOf(s1.windows, s1.focus), FullscreenWindow(s1.windows));
  }

  /** Showing the record at `i` again keeps it at `i`, with its fullscreen flag. */
  lemma ShownFirst(s: WmState, i: nat)
    requires WellFormed(s) && i < |s.windows|
    ensures var w := s.windows[i].window;
      var s1 := if s.windows[i].minimised then RemoveMinimised(s, w) else s;
      WellFormed(s1) && |s1.windows| == |s.windows| && IndexOf(Ids(s1.windows), w) == Some(i) &&
      s1.windows[i].fullscreen == s.windows[i].fullscreen &&
      FocusedOf(s1.windows, s1.focus) == FocusedOf(s.windows, s.focus) &&
      FullscreenWindow(s1.windows) == FullscreenWindow(s.windows)
  {
    var w := s.windows[i].window;
    var s1 := if s.windows[i].minimised then RemoveMinimised(s, w) else s;
    assert Ids(s.windows)[i] == w;
    DistinctIndexOf(Ids(s.windows), i);
    FullscreenWindowSame(s.windows, s1.windows);
    if s.focus.Some? {
      assert Ids(s1.windows)[s.focus.value] == Ids(s.windows)[s.focus.value];
    }
  }

  /**
   * `toggle_floating` of a managed id: the record of w flips its mode, keeps
   * its saved geometry, is shown and not fullscreen; Tile to Float puts it
   * last at its saved geometry.
   */
  lemma FloatToggledRecord(s: WmState, w: Window)
    requires WellFormed(s) && w in Ids(s.windows)
    ensures var rec := s.windows[IndexOf(Ids(s.windows), w).value];
      var r := FloatToggled(s, w);
      var j := IndexOf(Ids(r.windows), w);
      |r.windows| == |s.windows| && j.Some? && FlippedFrom(r.windows[j.value], rec) &&
      (rec.mode == Tile ==> j.value == |r.windows| - 1)
  {
    var i := IndexOf(Ids(s.windows), w).value;
    if s.windows[i].fullscreen {
      FullToggledRecord(s, i);
    } else {
      ShownToggledRecord(s, i);
    }
  }

  /**
   * `toggle_floating` of a managed id that is not fullscreen keeps the
   * focused window and the fullscreen window; of the fullscreen one, it
   * leaves no fullscreen record and focuses w.
   */
  lemma FloatToggledFocus(s: WmState, w: Window)
    requires WellFormed(s) && w in Ids(s.windows)
    ensures var rec := s.windows[IndexOf(Ids(s.windows), w).value];
      var r := FloatToggled(s, w);
      (!rec.fullscreen ==> FocusedOf(r.windows, r.focus) == FocusedOf(s.windows, s.focus) &&
                           FullscreenWindow(r.windows) == FullscreenWindow(s.windows)) &&
      (rec.fullscreen ==> !HasFullscreen(r.windows) && FocusedOf(r.windows, r.focus) == Some(w))
  {
    var i := IndexOf(Ids(s.windows), w).value;
    if s.windows[i].fullscreen {
      FullToggledRecord(s, i);
    } else {
      ShownToggledFocus(s, i);
    }
  }

  /** `toggle_floating` of a record that is not fullscreen keeps the focused and the fullscreen window. */
  lemma ShownToggledFocus(s: WmState, i: nat)
    requires WellFormed(s) && i < |s.windows| && !s.windows[i].fullscreen
    ensures var rec := s.windows[i];
      var w := rec.window;
      var s1 := if rec.minimised then RemoveMinimised(s, w) else s;
      WellFormed(s1) && w in Ids(s1.windows) &&
      var r := Restored(Added(Removed(s1, w), ToggledInfo(rec)), FocusedOf(s1.windows, s1.focus), FullscreenWindow(s1.windows));
      FocusedOf(r.windows, r.focus) == FocusedOf(s.windows, s.focus) &&
      FullscreenWindow(r.windows) == FullscreenWindow(s.windows)
  {
    var rec := s.windows[i];
    var w := rec.window;
    var s1 := if rec.minimised then RemoveMinimised(s, w) else s;
    ShownFirst(s, i);
    OtherFullscreen(s1, w);
    ReAddedFocus(s1, rec, FocusedOf(s1.windows, s1.focus), FullscreenWindow(s1.windows));
  }

  /** Re-adding a record and restoring a managed focus and fullscreen id reports exactly those. */
  lemma ReAddedFocus(s1: WmState, rec: Record, focused: Option<Window>, fsw: Option<Window>)
    requires WellFormed(s1) && rec.window in Ids(s1.windows)
    requires focused.Some? ==> focused.value in Ids(s1.windows)
    requires fsw.Some? ==> fsw.value in Ids(s1.windows)
    ensures var r := Restored(Added(Removed(s1, rec.window), ToggledInfo(rec)), focused, fsw);
      FocusedOf(r.windows, r.focus) == focused && FullscreenWindow(r.windows) == fsw
  {
    var info := ToggledInfo(rec);
    ReAddedIds(s1, rec.window, info);
    var s2 := Added(Removed(s1, rec.window), info);
    if focused.Some? {
      assert focused.value in multiset(Ids(s2.windows));
    }
    if fsw.Some? {
      assert fsw.value in multiset(Ids(s2.windows));
    }
    RestoredFocus(s2, focused, fsw);
    RestoredFullscreen(s2, focused, fsw);
  }

  /** Toggling floating twice restores the mode and the saved geometry; from Float, also the geometry. */
  lemma FloatToggledTwice(s: WmState, w: Window)
    requires WellFormed(s) && w in Ids(s.windows)
    ensures var rec := s.windows[IndexOf(Ids(s.windows), w).value];
      var r := FloatToggled(FloatToggled(s, w), w);
      var j := IndexOf(Ids(r.windows), w);
      j.Some? && r.windows[j.value].mode == rec.mode && r.windows[j.value].savedGeometry == rec.savedGeometry &&
      (rec.mode == Float ==> r.windows[j.value].geometry == rec.savedGeometry)
  {
    var rec := s.windows[IndexOf(Ids(s.windows), w).value];
    var r1 := FloatToggled(s, w);
    FloatToggledRecord(s, w);
    var rec1 := r1.windows[IndexOf(Ids(r1.windows), w).value];
    var r := FloatToggled(r1, w);
    FloatToggledRecord(r1, w);
    FlippedBack(rec, rec1, r.windows[IndexOf(Ids(r.windows), w).value]);
  }

  lemma FlippedBack(a: Record, b: Record, c: Record)
    requires FlippedFrom(b, a) && FlippedFrom(c, b)
    ensures c.mode == a.mode && c.savedGeometry == a.savedGeometry && (a.mode == Float ==> c.geometry == a.savedGeometry)
  {
  }

  /**
   * `set_window_geometry` of a managed Float sets both of its geometries to
   * `g`, shows it and takes it out of the ledger, and changes no other
   * record; of a Tile it changes nothing.
   */
  lemma GeometrySetFloat(s: WmState, w: Window, g: Geometry)
    requires WellFormed(s) && LedgerAgrees(s.windows, s.ledger) && w in Ids(s.windows)
    ensures var i := IndexOf(Ids(s.windows), w).value;
      var r := GeometrySet(s, w, g);
      (s.windows[i].mode == Tile ==> r == s) &&
      (s.windows[i].mode == Float ==>
        r.windows[i] == s.windows[i].(geometry := g, savedGeometry := g, minimised := false) &&
        (forall k :: 0 <= k < |s.windows| && k != i ==> r.windows[k] == s.windows[k]) &&
        r.ledger == Unlisted(s.ledger, w) && LedgerAgrees(r.windows, r.ledger) &&
        (FullscreenFocused(s) ==> FullscreenFocused(r)))
  {
    var i := IndexOf(Ids(s.windows), w).value;
    if s.windows[i].mode == Float {
      UnminimisedOnly(s, i);
      UnlistAgrees(s, w);
      var s1 := if s.windows[i].minimised then RemoveMinimised(s, w) else s;
      assert w !in s.ledger ==> Unlisted(s.ledger, w) == s.ledger;
      var r := GeometrySet(s, w, g);
      assert r.windows == s1.windows[i := s1.windows[i].(savedGeometry := g, geometry := g)];
      assert forall k :: 0 <= k < |r.windows| ==> r.windows[k].window == s1.windows[k].window && r.windows[k].minimised == s1.windows[k].minimised;
      assert Ids(r.windows) == Ids(s1.windows);
    }
  }

  /** A rewrite of fullscreen flags only keeps the ledger's agreement with the flags. */
  lemma FullscreenFlagsKeepLedger(a: seq<Record>, b: seq<Record>, ledger: seq<Window>)
    requires FlagsOnly(a, b) && forall k :: 0 <= k < |a| ==> b[k].minimised == a[k].minimised
    ensures LedgerAgrees(b, ledger) <==> LedgerAgrees(a, ledger)
  {
    FlagsKeepShape(a, b);
  }

  /**
   * `toggle_minimised` of a managed id: w's fullscreen flag is cleared and
   * its minimised flag flips; minimising appends w to the ledger and drops
   * the focus when w had it, showing takes w out of the ledger; the other
   * records keep everything but their geometry.
   */
  lemma MinimisedToggledRecords(s: WmState, w: Window)
    requires WellFormed(s) && LedgerAgrees(s.windows, s.ledger) && w in Ids(s.windows)
    ensures var i := IndexOf(Ids(s.windows), w).value;
      var r := MinimisedToggled(s, w);
      var was := s.windows[i].minimised;
      |r.windows| == |s.windows| &&
      r.windows[i] == s.windows[i].(geometry := r.windows[i].geometry, fullscreen := false, minimised := !was) &&
      (forall k :: 0 <= k < |s.windows| && k != i ==> r.windows[k] == s.windows[k].(geometry := r.windows[k].geometry)) &&
      r.ledger == (if was then Unlisted(s.ledger, w) else s.ledger + [w]) &&
      r.focus == (if !was && s.focus == Some(i) then None else s.focus)
  {
    var i := IndexOf(Ids(s.windows), w).value;
    var s2 := MinimisedFlipped(s, i);
    var r := MinimisedToggled(s, w);
    assert r == Update(s2);
    forall k | 0 <= k < |s.windows| && k != i
      ensures r.windows[k] == s.windows[k].(geometry := r.windows[k].geometry)
    {
      assert s2.windows[k] == s.windows[k];
    }
  }

  /** The flag steps of `toggle_minimised` on the record at `i`, before the retiling. */
  lemma MinimisedToggledStep(s: WmState, i: nat)
    requires WellFormed(s) && LedgerAgrees(s.windows, s.ledger) && i < |s.windows|
    ensures var w := s.windows[i].window;
      var was := s.windows[i].minimised;
      var s1 := Reflagged(s, w, false);
      var s2 := if w in s1.ledger then RemoveMinimised(s1, w)
                else SetMinimised(if s1.focus == Some(i) then s1.(focus := None) else s1, w);
      s2.windows == s.windows[i := s.windows[i].(fullscreen := false, minimised := !was)] &&
      s2.ledger == (if was then Unlisted(s.ledger, w) else s.ledger + [w]) &&
      s2.focus == (if !was && s.focus == Some(i) then None else s.focus)
  {
    var w := s.windows[i].window;
    var s1 := Reflagged(s, w, false);
    ClearedAt(s, i);
    FullscreenFlagsKeepLedger(s.windows, s1.windows, s.ledger);
    assert Ids(s.windows)[i] == w;
    if s.windows[i].minimised {
      UnminimisedOnly(s1, i);
    } else {
      assert w !in s.ledger;
      var t := if s1.focus == Some(i) then s1.(focus := None) else s1;
      OnlyAt(t.windows, i);
    }
  }

  /** Clearing the fullscreen flag of the record at `i` changes only that flag. */
  lemma ClearedAt(s: WmState, i: nat)
    requires WellFormed(s) && i < |s.windows|
    ensures var s1 := Reflagged(s, s.windows[i].window, false);
      s1.windows == s.windows[i := s.windows[i].(fullscreen := false)] && s1.ledger == s.ledger && s1.focus == s.focus
  {
    OnlyAt(s.windows, i);
  }

  /**
   * `toggle_minimised` keeps the ledger in agreement with the flags, so
   * `is_minimised` holds exactly for the listed ids.
   */
  lemma MinimisedToggledAgrees(s: WmState, w: Window)
    requires WellFormed(s) && LedgerAgrees(s.windows, s.ledger) && w in Ids(s.windows)
    ensures var r := MinimisedToggled(s, w);
      LedgerAgrees(r.windows, r.ledger)
  {
    var i := IndexOf(Ids(s.windows), w).value;
    var s2 := MinimisedFlipped(s, i);
    GeometryOnly(s2.windows, Update(s2).windows, s2.ledger);
  }

  /** `toggle_minimised` keeps "a fullscreen record is the focused one". */
  lemma MinimisedToggledFocus(s: WmState, w: Window)
    requires WellFormed(s) && LedgerAgrees(s.windows, s.ledger) && w in Ids(s.windows) && FullscreenFocused(s)
    ensures FullscreenFocused(MinimisedToggled(s, w))
  {
    MinimisedToggledRecords(s, w);
  }

  /** Minimising a shown window and showing it again gives the ledger back, and shows the record again. */
  lemma MinimisedToggledTwice(s: WmState, w: Window)
    requires WellFormed(s) && LedgerAgrees(s.windows, s.ledger) && w in Ids(s.windows)
    requires !s.windows[IndexOf(Ids(s.windows), w).value].minimised
    ensures var i := IndexOf(Ids(s.windows), w).value;
      var r := MinimisedToggled(MinimisedToggled(s, w), w);
      r.ledger == s.ledger && !r.windows[i].minimised && !r.windows[i].fullscreen
  {
    var i := IndexOf(Ids(s.windows), w).value;
    var r1 := MinimisedToggled(s, w);
    MinimisedToggledRecords(s, w);
    MinimisedToggledAgrees(s, w);
    assert IndexOf(Ids(r1.windows), w) == Some(i);
    MinimisedToggledRecords(r1, w);
    assert w !in s.ledger;
    UnlistAppended(s.ledger, w);
  }

  /** With w not fullscreen, both branches of `toggle_fullscreen`'s flag changes focus w and then make it fullscreen. */
  lemma SwitchedOn(s: WmState, w: Window)
    requires WellFormed(s) && w in Ids(s.windows) && !s.windows[IndexOf(Ids(s.windows), w).value].fullscreen
    ensures FullscreenSwitched(s, w) == Reflagged(Focused(s, Some(w)), w, true)
  {
    var i := IndexOf(Ids(s.windows), w).value;
    match LastFullscreen(s.windows)
    case None =>
    case Some(full) =>
      LastFullscreenIs(s.windows, i);
      var c := Reflagged(s, w, false);
      assert c.windows == s.windows;
  }

  /** The last fullscreen record is not the one at `i` when that record is not fullscreen. */
  lemma LastFullscreenIs(ws: seq<Record>, i: nat)
    requires Distinct(Ids(ws)) && i < |ws| && !ws[i].fullscreen
    ensures LastFullscreen(ws).Some? ==> LastFullscreen(ws).value.window != ws[i].window
  {
    var l := LastFullscreen(ws);
    if l.Some? {
      var f := l.value;
      assert f in ws && f.fullscreen;
      var k :| 0 <= k < |ws| && ws[k] == f;
      assert k != i;
      assert Ids(ws)[k] != Ids(ws)[i];
    }
  }

  /**
   * `toggle_fullscreen` of a managed id that is not fullscreen: w is shown,
   * taken out of the ledger, focused, and the only fullscreen record, at the
   * screen's geometry; the fullscreen window is w, and the layout is w alone.
   */
  lemma FullscreenToggledOn(s: WmState, w: Window)
    requires WellFormed(s) && LedgerAgrees(s.windows, s.ledger) && w in Ids(s.windows)
    requires !s.windows[IndexOf(Ids(s.windows), w).value].fullscreen
    ensures var i := IndexOf(Ids(s.windows), w).value;
      var r := FullscreenToggled(s, w);
      (forall k :: 0 <= k < |r.windows| ==> (r.windows[k].fullscreen <==> k == i)) &&
      r.focus == Some(i) && !r.windows[i].minimised && r.windows[i].geometry == ScreenGeometry(s.screen) &&
      FullscreenWindow(r.windows) == Some(w) && FullscreenFocused(r) &&
      WindowLayout(r.windows, r.focus) == Layout(Some(w), [(w, ScreenGeometry(s.screen))]) &&
      r.ledger == Unlisted(s.ledger, w) && LedgerAgrees(r.windows, r.ledger)
  {
    var i := IndexOf(Ids(s.windows), w).value;
    var s1 := if s.windows[i].minimised then RemoveMinimised(s, w) else s;
    UnminimisedOnly(s, i);
    UnlistAgrees(s, w);
    FlagsKeepShape(s.windows, s1.windows);
    assert IndexOf(Ids(s1.windows), w) == Some(i);
    SwitchedOn(s1, w);
    FocusedOn(s1, w);
    var t := Focused(s1, Some(w));
    UnlistedRemoves(s.ledger, w);
    var u := Reflagged(t, w, true);
    WithFullscreenOnly(t.windows, w);
    assert Ids(t.windows)[i] == w;
    FullscreenFlagsKeepLedger(t.windows, u.windows, t.ledger);
    var r := Update(u);
    GeometryOnly(u.windows, r.windows, u.ledger);
    RetiledAt(u.windows, u.screen, i);
    LayoutFullscreen(r.windows, r.focus, i);
  }

  /**
   * `toggle_fullscreen` of the fullscreen record: no record is fullscreen
   * any more, the focus stays, and w is shown and out of the ledger.
   */
  lemma FullscreenToggledOff(s: WmState, w: Window)
    requires WellFormed(s) && LedgerAgrees(s.windows, s.ledger) && w in Ids(s.windows)
    requires s.windows[IndexOf(Ids(s.windows), w).value].fullscreen
    ensures var i := IndexOf(Ids(s.windows), w).value;
      var r := FullscreenToggled(s, w);
      !HasFullscreen(r.windows) && r.focus == s.focus && !r.windows[i].minimised &&
      r.ledger == Unlisted(s.ledger, w) && LedgerAgrees(r.windows, r.ledger)
  {
    var i := IndexOf(Ids(s.windows), w).value;
    var s1 := if s.windows[i].minimised then RemoveMinimised(s, w) else s;
    UnminimisedOnly(s, i);
    UnlistAgrees(s, w);
    assert Ids(s.windows)[i] == w;
    LastFullscreenUnique(s1.windows, i);
    var c := Reflagged(s1, w, false);
    assert FullscreenSwitched(s1, w) == c;
    forall k | 0 <= k < |c.windows|
      ensures !c.windows[k].fullscreen
    {
      if k != i {
        assert !s1.windows[k].fullscreen;
      }
    }
    FullscreenFlagsKeepLedger(s1.windows, c.windows, s1.ledger);
    GeometryOnly(c.windows, Update(c).windows, c.ledger);
  }

  /** `resize_screen` gives the fullscreen record the new screen, and keeps focus, ledger and flags. */
  lemma ResizedFullscreen(s: WmState, screen: Screen, k: nat)
    requires WellFormed(s) && k < |s.windows| && s.windows[k].fullscreen
    ensures var r := Resized(s, screen);
      r.windows[k].geometry == ScreenGeometry(screen) && r.windows[k].fullscreen &&
      (FullscreenFocused(s) ==> FullscreenFocused(r)) &&
      (LedgerAgrees(s.windows, s.ledger) ==> LedgerAgrees(r.windows, r.ledger))
  {
    RetiledAt(s.windows, screen, k);
    GeometryOnly(s.windows, Resized(s, screen).windows, s.ledger);
  }

  // ---------------------------------------------------------------------------
  // The remaining operations keep the ledger in agreement
  // ---------------------------------------------------------------------------

  /** `resize_screen` keeps the ledger's agreement, shown fullscreen records and a focused fullscreen record, in every state. */
  lemma ResizedAgrees(s: WmState, screen: Screen)
    requires WellFormed(s)
    ensures var r := Resized(s, screen);
      (LedgerAgrees(r.windows, r.ledger) <==> LedgerAgrees(s.windows, s.ledger)) &&
      (FullscreenShown(s.windows) ==> FullscreenShown(r.windows)) &&
      (MinimisedListed(s) ==> MinimisedListed(r)) &&
      (FullscreenFocused(s) ==> FullscreenFocused(r))
  {
    GeometryOnly(s.windows, Resized(s, screen).windows, s.ledger);
    UpdateKeepsShown(s.(screen := screen));
  }

  /** `focus_window` keeps the ledger's agreement and lists no new id. */
  lemma FocusedAgrees(s: WmState, window: Option<Window>)
    requires WellFormed(s) && LedgerAgrees(s.windows, s.ledger)
    ensures var r := Focused(s, window);
      LedgerAgrees(r.windows, r.ledger) && forall v :: v in r.ledger ==> v in s.ledger
  {
    if window.Some? && window.value in Ids(s.windows) {
      FocusedOn(s, window.value);
      UnlistedRemoves(s.ledger, window.value);
    }
  }

  /** The trade inside `swap_with_master` keeps the ledger's agreement. */
  lemma MasterSwappedAgrees(c: WmState, mi: nat, wi: nat)
    requires WellFormed(c) && !HasFullscreen(c.windows) && LedgerAgrees(c.windows, c.ledger)
    requires mi < |c.windows| && wi < |c.windows| && IsTiled(c.windows[mi]) && c.windows[wi].mode == Tile
    ensures var r := MasterSwapped(c, mi, wi);
      LedgerAgrees(r.windows, r.ledger)
  {
    var w := c.windows[wi].window;
    UnlistAgrees(c, w);
    var u := if c.windows[wi].minimised then RemoveMinimised(c, w) else c;
    var sw := TradedPlaces(u, mi, wi);
    SwapAgrees(u.windows, mi, wi, u.ledger);
    var up := Update(sw);
    GeometryOnly(sw.windows, up.windows, sw.ledger);
    FocusedAgrees(up, Some(w));
  }

  /**
   * `swap_with_master` keeps the ledger's agreement; as it leaves no
   * fullscreen record, it also leaves none minimised and none unfocused.
   */
  lemma SwappedWithMasterAgrees(s: WmState, w: Window)
    requires WellFormed(s) && LedgerAgrees(s.windows, s.ledger)
    ensures var r := SwappedWithMaster(s, w);
      LedgerAgrees(r.windows, r.ledger) && FullscreenShown(r.windows) && FullscreenFocused(r)
  {
    var c := Cleared(s);
    NoFullscreenKeepsLedger(s.windows, s.ledger);
    match IndexOf(Ids(c.windows), w)
    case None =>
    case Some(wi) =>
      if c.windows[wi].mode == Tile {
        match FirstWhere(c.windows, IsTiled)
        case None =>
        case Some(mi) => MasterSwappedAgrees(c, mi, wi);
      }
  }

  /**
   * `swap_windows` keeps the ledger's agreement; as it leaves no fullscreen
   * record, it also leaves none minimised and none unfocused.
   */
  lemma SwappedWindowsAgrees(s: WmState, dir: Direction)
    requires WellFormed(s) && LedgerAgrees(s.windows, s.ledger)
    ensures var r := SwappedWindows(s, dir);
      LedgerAgrees(r.windows, r.ledger) && FullscreenShown(r.windows) && FullscreenFocused(r)
  {
    var c := Cleared(s);
    NoFullscreenKeepsLedger(s.windows, s.ledger);
    if |c.windows| > 1 && c.focus.Some? && c.windows[c.focus.value].mode == Tile {
      var index := c.focus.value;
      match TileNeighbour(c.windows, index, dir)
      case None =>
        UnlistAgrees(c, c.windows[index].window);
      case Some(j) =>
        var sw := TradedPlaces(c.(focus := Some(j)), index, j);
        SwapAgrees(c.windows, index, j, c.ledger);
        var t := Update(sw);
        GeometryOnly(sw.windows, t.windows, sw.ledger);
        UnlistAgrees(t, t.windows[j].window);
    }
  }

  /** With distinct ids, "a fullscreen record is the focused one" says that the focused window is the fullscreen window. */
  lemma FullscreenFocusedByIds(s: WmState)
    requires WellFormed(s)
    ensures FullscreenFocused(s) <==>
      (HasFullscreen(s.windows) ==> FocusedOf(s.windows, s.focus) == FullscreenWindow(s.windows))
  {
    if HasFullscreen(s.windows) {
      var k :| 0 <= k < |s.windows| && s.windows[k].fullscreen;
      if FocusedOf(s.windows, s.focus) == FullscreenWindow(s.windows) {
        OnlyAt(s.windows, k);
      }
    }
  }

  /** A shown fullscreen record's id is not in an agreeing ledger. */
  lemma FullscreenUnlisted(s: WmState)
    requires AtMostOneFullscreen(s.windows) && LedgerAgrees(s.windows, s.ledger) && FullscreenShown(s.windows)
    ensures FullscreenWindow(s.windows).Some? ==> FullscreenWindow(s.windows).value !in s.ledger
  {
    if HasFullscreen(s.windows) {
      var k :| 0 <= k < |s.windows| && s.windows[k].fullscreen;
    }
  }

  /**
   * The end of `toggle_floating` keeps the ledger's agreement and lists no
   * new id; when the remembered fullscreen id is not listed, the record made
   * fullscreen again is shown.
   */
  lemma RestoredAgrees(s2: WmState, focused: Option<Window>, fsw: Option<Window>)
    requires WellFormed(s2) && !HasFullscreen(s2.windows) && LedgerAgrees(s2.windows, s2.ledger)
    ensures var r := Restored(s2, focused, fsw);
      LedgerAgrees(r.windows, r.ledger) && (forall v :: v in r.ledger ==> v in s2.ledger) &&
      ((fsw.Some? ==> fsw.value !in s2.ledger) ==> FullscreenShown(r.windows))
  {
    var s3 := Focused(s2, focused);
    FocusedAgrees(s2, focused);
    var s4 := match fsw case None => s3 case Some(f) => Reflagged(s3, f, true);
    FullscreenFlagsKeepLedger(s3.windows, s4.windows, s3.ledger);
    var r := Update(s4);
    GeometryOnly(s4.windows, r.windows, s4.ledger);
    RestoredRecords(s2, focused, fsw);
    assert r == Restored(s2, focused, fsw);
  }

  /**
   * `toggle_floating` keeps "a fullscreen record is the focused one"; while
   * no fullscreen record is minimised, it keeps the ledger's agreement and
   * keeps fullscreen records shown. (A minimised fullscreen record would be
   * removed while minimised, which leaves its id in the ledger.)
   */
  lemma FloatToggledInvariants(s: WmState, w: Window)
    requires WellFormed(s)
    ensures var r := FloatToggled(s, w);
      (FullscreenFocused(s) ==> FullscreenFocused(r)) &&
      (LedgerAgrees(s.windows, s.ledger) && FullscreenShown(s.windows) ==>
         LedgerAgrees(r.windows, r.ledger) && FullscreenShown(r.windows))
  {
    var r := FloatToggled(s, w);
    if w in Ids(s.windows) {
      FloatToggledFocus(s, w);
      FullscreenFocusedByIds(s);
      FullscreenFocusedByIds(r);
      if LedgerAgrees(s.windows, s.ledger) && FullscreenShown(s.windows) {
        FloatToggledLedger(s, w);
      }
    }
  }

  lemma FloatToggledLedger(s: WmState, w: Window)
    requires WellFormed(s) && LedgerAgrees(s.windows, s.ledger) && FullscreenShown(s.windows) && w in Ids(s.windows)
    ensures var r := FloatToggled(s, w);
      LedgerAgrees(r.windows, r.ledger) && FullscreenShown(r.windows)
  {
    var i := IndexOf(Ids(s.windows), w).value;
    var rec := s.windows[i];
    var info := ToggledInfo(rec);
    if rec.fullscreen {
      RemovedInvariants(s, w);
      ReAddedIds(s, w, info);
      AddedRecord(Removed(s, w), info);
    } else {
      var s1 := if rec.minimised then RemoveMinimised(s, w) else s;
      UnlistAgrees(s, w);
      ShownFirst(s, i);
      RemovedInvariants(s1, w);
      ReAddedIds(s1, w, info);
      var t := Removed(s1, w);
      AddedRecord(t, info);
      var s2 := Added(t, info);
      FullscreenUnlisted(s1);
      RestoredAgrees(s2, FocusedOf(s1.windows, s1.focus), FullscreenWindow(s1.windows));
    }
  }

  // ---------------------------------------------------------------------------
  // Fullscreen records stay shown and minimised records stay listed
  // ---------------------------------------------------------------------------

  /** No record with id f is minimised. */
  predicate ShownId(ws: seq<Record>, f: Window)
  {
    forall k :: 0 <= k < |ws| && ws[k].window == f ==> !ws[k].minimised
  }

  /** An agreeing ledger lists every minimised record; `remove_window` can break the agreement but not this. */
  lemma AgreesListed(s: WmState)
    requires LedgerAgrees(s.windows, s.ledger)
    ensures MinimisedListed(s)
  {
  }

  /** A change that keeps the ids and sets no flag keeps fullscreen records shown, and keeps shown ids shown. */
  lemma ShownByPosition(a: seq<Record>, b: seq<Record>)
    requires |b| == |a| && Ids(b) == Ids(a)
    requires forall k :: 0 <= k < |a| ==> (b[k].minimised ==> a[k].minimised) && (b[k].fullscreen ==> a[k].fullscreen)
    ensures FullscreenShown(a) ==> FullscreenShown(b)
    ensures forall f :: ShownId(a, f) ==> ShownId(b, f)
  {
    assert forall k :: 0 <= k < |a| ==> Ids(b)[k] == b[k].window && Ids(a)[k] == a[k].window;
  }

  /** A change that keeps the ids, minimises nothing and unlists nothing keeps every minimised record listed. */
  lemma ListedByPosition(a: WmState, b: WmState)
    requires |b.windows| == |a.windows| && Ids(b.windows) == Ids(a.windows)
    requires forall k :: 0 <= k < |a.windows| && b.windows[k].minimised ==> a.windows[k].minimised
    requires forall v :: v in a.ledger ==> v in b.ledger
    ensures MinimisedListed(a) ==> MinimisedListed(b)
  {
    assert forall k :: 0 <= k < |a.windows| ==> Ids(b.windows)[k] == b.windows[k].window && Ids(a.windows)[k] == a.windows[k].window;
  }

  /** `update_geometries` touches no flag, no id and no ledger entry. */
  lemma UpdateKeepsShown(s: WmState)
    ensures var r := Update(s);
      (FullscreenShown(s.windows) ==> FullscreenShown(r.windows)) && (MinimisedListed(s) ==> MinimisedListed(r)) &&
      (forall f :: ShownId(s.windows, f) ==> ShownId(r.windows, f))
  {
    ShownByPosition(s.windows, Update(s).windows);
    ListedByPosition(s, Update(s));
  }

  /** `remove_minimised_window` keeps minimised records listed: the id it unlists belongs to the record it shows. */
  lemma RemoveMinimisedListed(s: WmState, w: Window)
    requires Distinct(Ids(s.windows)) && MinimisedListed(s)
    ensures MinimisedListed(RemoveMinimised(s, w))
  {
    var r := RemoveMinimised(s, w);
    forall k | 0 <= k < |r.windows| && r.windows[k].minimised
      ensures r.windows[k].window in r.ledger
    {
      assert Ids(r.windows)[k] == Ids(s.windows)[k];
      if w in s.ledger {
        UnlistedKeepsOthers(s.ledger, w, r.windows[k].window);
      }
    }
  }

  /** `remove_minimised_window` sets no flag. */
  lemma RemoveMinimisedShown(s: WmState, w: Window)
    ensures var r := RemoveMinimised(s, w);
      (FullscreenShown(s.windows) ==> FullscreenShown(r.windows)) && (forall f :: ShownId(s.windows, f) ==> ShownId(r.windows, f))
  {
    ShownByPosition(s.windows, RemoveMinimised(s, w).windows);
  }

  /** `set_minimised_window` keeps minimised records listed: the record it minimises joins the ledger. */
  lemma SetMinimisedListed(s: WmState, w: Window)
    requires MinimisedListed(s)
    ensures MinimisedListed(SetMinimised(s, w))
  {
    var r := SetMinimised(s, w);
    forall k | 0 <= k < |r.windows| && r.windows[k].minimised
      ensures r.windows[k].window in r.ledger
    {
      assert Ids(r.windows)[k] == Ids(s.windows)[k];
    }
  }

  /** With at most one fullscreen record and that one shown, no record with the fullscreen window's id is minimised. */
  lemma FullscreenIdShown(ws: seq<Record>)
    requires Distinct(Ids(ws)) && AtMostOneFullscreen(ws) && FullscreenShown(ws)
    ensures FullscreenWindow(ws).Some? ==> ShownId(ws, FullscreenWindow(ws).value)
  {
    if HasFullscreen(ws) {
      var p :| 0 <= p < |ws| && ws[p].fullscreen;
      forall k | 0 <= k < |ws| && ws[k].window == FullscreenWindow(ws).value
        ensures !ws[k].minimised
      {
        assert Ids(ws)[k] == Ids(ws)[p];
      }
    }
  }

  /** Storing a new, shown record keeps minimised records listed and every other id shown. */
  lemma InsertedKeepsShown(c: WmState, info: Info)
    ensures var t := Inserted(c, info);
      (MinimisedListed(c) ==> MinimisedListed(t)) &&
      (forall f :: f != info.window && ShownId(c.windows, f) ==> ShownId(t.windows, f))
  {
    var at := AddedAt(c.windows, info);
    var t := Inserted(c, info);
    assert forall k :: 0 <= k < |t.windows| && k != at ==> t.windows[k] == c.windows[if k < at then k else k - 1];
  }

  /** `add_window` leaves no fullscreen record minimised, in every state, and keeps minimised records listed and other ids shown. */
  lemma AddedKeepsShown(s: WmState, info: Info)
    requires WellFormed(s) && info.window !in Ids(s.windows)
    ensures FullscreenShown(Added(s, info).windows)
    ensures MinimisedListed(s) ==> MinimisedListed(Added(s, info))
    ensures forall f :: f != info.window && ShownId(s.windows, f) ==> ShownId(Added(s, info).windows, f)
  {
    AddedRecord(s, info);
    var c := Cleared(s);
    ShownByPosition(s.windows, c.windows);
    ListedByPosition(s, c);
    var t := Inserted(c, info);
    InsertedKeepsShown(c, info);
    UpdateKeepsShown(t);
    assert Added(s, info) == if info.mode == Float then t else Update(t);
  }

  /** `windows.remove(i)`, with the focus adjusted, sets no flag and unlists nothing. */
  lemma DroppedKeepsShown(s: WmState, i: nat)
    requires WellFormed(s) && i < |s.windows|
    ensures var t := Dropped(s, i);
      (FullscreenShown(s.windows) ==> FullscreenShown(t.windows)) && (MinimisedListed(s) ==> MinimisedListed(t)) &&
      (forall f :: ShownId(s.windows, f) ==> ShownId(t.windows, f))
  {
    var t := Dropped(s, i);
    assert forall k :: 0 <= k < |t.windows| ==> t.windows[k] == s.windows[if k < i then k else k + 1];
  }

  /**
   * `remove_window` minimises nothing and unlists nothing, so it keeps every
   * fullscreen record shown and every minimised record listed, in every
   * state, stale ledger ids or not.
   */
  lemma RemovedKeepsShown(s: WmState, w: Window)
    requires WellFormed(s) && w in Ids(s.windows)
    ensures var r := Removed(s, w);
      (FullscreenShown(s.windows) ==> FullscreenShown(r.windows)) &&
      (MinimisedListed(s) ==> MinimisedListed(r)) &&
      (forall f :: ShownId(s.windows, f) ==> ShownId(r.windows, f))
  {
    var i := IndexOf(Ids(s.windows), w).value;
    var t := Dropped(s, i);
    DroppedKeepsShown(s, i);
    var purged := if s.windows[i].minimised then Reflagged(t, w, false) else t;
    ShownByPosition(t.windows, purged.windows);
    ListedByPosition(t, purged);
    UpdateKeepsShown(purged);
    assert Removed(s, w) == if s.windows[i].mode == Tile then Update(purged) else purged;
  }

  /** `focus_window` keeps every fullscreen record shown and every minimised record listed, in every state. */
  lemma FocusedKeepsShown(s: WmState, window: Option<Window>)
    requires WellFormed(s)
    ensures var r := Focused(s, window);
      (FullscreenShown(s.windows) ==> FullscreenShown(r.windows)) && (MinimisedListed(s) ==> MinimisedListed(r))
  {
    match window
    case None =>
    case Some(w) =>
      match IndexOf(Ids(s.windows), w)
      case None =>
      case Some(i) =>
        if !s.windows[i].fullscreen {
          var t := Cleared(s.(focus := Some(i)));
          ListedByPosition(s, t);
          if MinimisedListed(t) && s.windows[i].minimised {
            RemoveMinimisedListed(t, w);
          }
        }
  }

  /** `cycle_focus` leaves no fullscreen record, and keeps every minimised record listed, in every state. */
  lemma CycledKeepsShown(s: WmState, dir: Direction)
    requires WellFormed(s)
    ensures var r := Cycled(s, dir);
      FullscreenShown(r.windows) && (MinimisedListed(s) ==> MinimisedListed(r))
  {
    var f := CycledFocus(s.focus, |s.windows|, dir);
    var t := s.(focus := f);
    var u := match f case None => t case Some(index) => RemoveMinimised(t, t.windows[index].window);
    if MinimisedListed(s) && f.Some? {
      RemoveMinimisedListed(t, t.windows[f.value].window);
    }
    var c := Cleared(u);
    ListedByPosition(u, c);
    UpdateKeepsShown(c);
  }

  /** `windows.swap(i, j)` keeps every minimised record listed. */
  lemma TradedListed(s: WmState, i: nat, j: nat)
    requires WellFormed(s) && !HasFullscreen(s.windows) && i < |s.windows| && j < |s.windows|
    requires s.windows[i].mode == Tile && s.windows[j].mode == Tile
    ensures MinimisedListed(s) ==> MinimisedListed(TradedPlaces(s, i, j))
  {
    var sw := TradedPlaces(s, i, j);
    assert forall k :: 0 <= k < |sw.windows| ==> sw.windows[k] == s.windows[if k == i then j else if k == j then i else k];
  }

  /** The trade inside `swap_with_master` keeps every minimised record listed. */
  lemma MasterSwappedListed(c: WmState, mi: nat, wi: nat)
    requires WellFormed(c) && !HasFullscreen(c.windows) && MinimisedListed(c)
    requires mi < |c.windows| && wi < |c.windows| && IsTiled(c.windows[mi]) && c.windows[wi].mode == Tile
    ensures MinimisedListed(MasterSwapped(c, mi, wi))
  {
    var w := c.windows[wi].window;
    if c.windows[wi].minimised {
      RemoveMinimisedListed(c, w);
    }
    var u := if c.windows[wi].minimised then RemoveMinimised(c, w) else c;
    TradedListed(u, mi, wi);
    var up := Update(TradedPlaces(u, mi, wi));
    UpdateKeepsShown(TradedPlaces(u, mi, wi));
    FocusedKeepsShown(up, Some(w));
  }

  /** `swap_with_master` leaves no fullscreen record, and keeps every minimised record listed, in every state. */
  lemma SwappedWithMasterKeepsShown(s: WmState, w: Window)
    requires WellFormed(s)
    ensures var r := SwappedWithMaster(s, w);
      FullscreenShown(r.windows) && (MinimisedListed(s) ==> MinimisedListed(r))
  {
    var c := Cleared(s);
    ListedByPosition(s, c);
    if MinimisedListed(c) {
      match IndexOf(Ids(c.windows), w)
      case None =>
      case Some(wi) =>
        if c.windows[wi].mode == Tile {
          match FirstWhere(c.windows, IsTiled)
          case None =>
          case Some(mi) => MasterSwappedListed(c, mi, wi);
        }
    }
  }

  /** The swap inside `swap_windows`, before the focused record is shown, keeps every minimised record listed. */
  lemma NeighbourSwappedListed(c: WmState, index: nat, dir: Direction)
    requires WellFormed(c) && !HasFullscreen(c.windows) && MinimisedListed(c)
    requires index < |c.windows| && c.windows[index].mode == Tile
    ensures match TileNeighbour(c.windows, index, dir)
            case None => true
            case Some(j) => MinimisedListed(Update(TradedPlaces(c.(focus := Some(j)), index, j)))
  {
    match TileNeighbour(c.windows, index, dir)
    case None =>
    case Some(j) =>
      TradedListed(c.(focus := Some(j)), index, j);
      UpdateKeepsShown(TradedPlaces(c.(focus := Some(j)), index, j));
  }

  /** `swap_windows` leaves no fullscreen record, and keeps every minimised record listed, in every state. */
  lemma SwappedWindowsKeepsShown(s: WmState, dir: Direction)
    requires WellFormed(s)
    ensures var r := SwappedWindows(s, dir);
      FullscreenShown(r.windows) && (MinimisedListed(s) ==> MinimisedListed(r))
  {
    var c := Cleared(s);
    ListedByPosition(s, c);
    if MinimisedListed(c) && |c.windows| > 1 && c.focus.Some? && c.windows[c.focus.value].mode == Tile {
      var index := c.focus.value;
      var t := (match TileNeighbour(c.windows, index, dir)
                case None => c
                case Some(j) => Update(TradedPlaces(c.(focus := Some(j)), index, j)));
      NeighbourSwappedListed(c, index, dir);
      RemoveMinimisedListed(t, t.windows[t.focus.value].window);
      assert SwappedWindows(s, dir) == RemoveMinimised(t, t.windows[t.focus.value].window);
    }
  }

  /**
   * The end of `toggle_floating` keeps every minimised record listed; when
   * no record with the remembered fullscreen id is minimised, the record
   * made fullscreen again is shown.
   */
  lemma RestoredKeepsShown(s2: WmState, focused: Option<Window>, fsw: Option<Window>)
    requires WellFormed(s2) && !HasFullscreen(s2.windows)
    ensures var r := Restored(s2, focused, fsw);
      (MinimisedListed(s2) ==> MinimisedListed(r)) &&
      ((fsw.Some? ==> ShownId(s2.windows, fsw.value)) ==> FullscreenShown(r.windows))
  {
    var s3 := Focused(s2, focused);
    FocusedKeepsShown(s2, focused);
    FocusedShows(s2, focused);
    var s4 := match fsw case None => s3 case Some(f) => Reflagged(s3, f, true);
    ListedByPosition(s3, s4);
    assert forall k :: 0 <= k < |s2.windows| ==> s3.windows[k].window == s2.windows[k].window && s4.windows[k].window == s2.windows[k].window;
    assert (fsw.Some? ==> ShownId(s2.windows, fsw.value)) ==> FullscreenShown(s4.windows);
    UpdateKeepsShown(s4);
  }

  /** The remembered fullscreen window of `toggle_floating` is not the toggled one, and no record with its id is minimised. */
  lemma RememberedShown(s1: WmState, i: nat)
    requires WellFormed(s1) && FullscreenShown(s1.windows) && i < |s1.windows| && !s1.windows[i].fullscreen
    ensures var fsw := FullscreenWindow(s1.windows);
      fsw.Some? ==> fsw.value != s1.windows[i].window && ShownId(s1.windows, fsw.value)
  {
    FullscreenIdShown(s1.windows);
    if HasFullscreen(s1.windows) {
      var p :| 0 <= p < |s1.windows| && s1.windows[p].fullscreen;
      assert Ids(s1.windows)[p] == s1.windows[p].window && Ids(s1.windows)[i] == s1.windows[i].window;
    }
  }

  /** Removing w and adding it again with a non-fullscreen info keeps every minimised record listed and every other id shown. */
  lemma ReAddedKeepsShown(s1: WmState, w: Window, info: Info, f: Window)
    requires WellFormed(s1) && w in Ids(s1.windows) && info.window == w && !info.fullscreen
    ensures w !in Ids(Removed(s1, w).windows)
    ensures var s2 := Added(Removed(s1, w), info);
      !HasFullscreen(s2.windows) && (MinimisedListed(s1) ==> MinimisedListed(s2)) &&
      (f != w && ShownId(s1.windows, f) ==> ShownId(s2.windows, f))
  {
    RemovedKeepsShown(s1, w);
    ReAddedIds(s1, w, info);
    AddedKeepsShown(Removed(s1, w), info);
  }

  /** `toggle_floating` of a record that is not fullscreen keeps every minimised record listed and every fullscreen record shown. */
  lemma ShownToggledKeepsShown(s: WmState, i: nat)
    requires WellFormed(s) && i < |s.windows| && !s.windows[i].fullscreen
    ensures var r := FloatToggled(s, s.windows[i].window);
      (FullscreenShown(s.windows) ==> FullscreenShown(r.windows)) && (MinimisedListed(s) ==> MinimisedListed(r))
  {
    var w := s.windows[i].window;
    assert Ids(s.windows)[i] == w;
    DistinctIndexOf(Ids(s.windows), i);
    var info := ToggledInfo(s.windows[i]);
    var s1 := if s.windows[i].minimised then RemoveMinimised(s, w) else s;
    if MinimisedListed(s) && s.windows[i].minimised {
      RemoveMinimisedListed(s, w);
    }
    RemoveMinimisedShown(s, w);
    var fsw := FullscreenWindow(s1.windows);
    if FullscreenShown(s1.windows) {
      RememberedShown(s1, i);
    }
    ReAddedKeepsShown(s1, w, info, if fsw.Some? then fsw.value else w);
    var s2 := Added(Removed(s1, w), info);
    RestoredKeepsShown(s2, FocusedOf(s1.windows, s1.focus), fsw);
    assert FloatToggled(s, w) == Restored(s2, FocusedOf(s1.windows, s1.focus), fsw);
  }

  /**
   * `toggle_floating` keeps every minimised record listed and every
   * fullscreen record shown, in every state: the remembered fullscreen
   * record is shown before the toggle, and neither the removal, the re-add
   * nor the refocus minimises it.
   */
  lemma FloatToggledKeepsShown(s: WmState, w: Window)
    requires WellFormed(s)
    ensures var r := FloatToggled(s, w);
      (FullscreenShown(s.windows) ==> FullscreenShown(r.windows)) && (MinimisedListed(s) ==> MinimisedListed(r))
  {
    match IndexOf(Ids(s.windows), w)
    case None =>
    case Some(i) =>
      assert Ids(s.windows)[i] == w;
      if s.windows[i].fullscreen {
        RemovedKeepsShown(s, w);
        ReAddedIds(s, w, ToggledInfo(s.windows[i]));
        AddedKeepsShown(Removed(s, w), ToggledInfo(s.windows[i]));
      } else {
        ShownToggledKeepsShown(s, i);
      }
  }

  /** `set_window_geometry` keeps every fullscreen record shown and every minimised record listed, in every state. */
  lemma GeometrySetKeepsShown(s: WmState, w: Window, g: Geometry)
    requires WellFormed(s)
    ensures var r := GeometrySet(s, w, g);
      (FullscreenShown(s.windows) ==> FullscreenShown(r.windows)) && (MinimisedListed(s) ==> MinimisedListed(r))
  {
    match IndexOf(Ids(s.windows), w)
    case None =>
    case Some(i) =>
      if s.windows[i].mode == Float {
        var s1 := if s.windows[i].minimised then RemoveMinimised(s, w) else s;
        if MinimisedListed(s) && s.windows[i].minimised {
          RemoveMinimisedListed(s, w);
        }
        RemoveMinimisedShown(s, w);
        var ws := s1.windows[i := s1.windows[i].(savedGeometry := g, geometry := g)];
        IdsUpdate(s1.windows, i, ws[i]);
        ShownByPosition(s1.windows, ws);
        ListedByPosition(s1, s1.(windows := ws));
      }
  }

  /** The flag steps of `toggle_minimised` keep every fullscreen record shown and every minimised record listed. */
  lemma FlippedKeepsShown(s: WmState, i: nat)
    requires WellFormed(s) && i < |s.windows|
    ensures var r := MinimisedFlipped(s, i);
      (FullscreenShown(s.windows) ==> FullscreenShown(r.windows)) && (MinimisedListed(s) ==> MinimisedListed(r))
  {
    var w := s.windows[i].window;
    var s1 := Reflagged(s, w, false);
    ListedByPosition(s, s1);
    assert forall k :: 0 <= k < |s.windows| ==> s1.windows[k].window == s.windows[k].window;
    var s0 := if s1.focus == Some(i) then s1.(focus := None) else s1;
    if w in s1.ledger {
      if MinimisedListed(s1) {
        RemoveMinimisedListed(s1, w);
      }
      RemoveMinimisedShown(s1, w);
      assert FullscreenShown(s.windows) ==> FullscreenShown(s1.windows);
      assert MinimisedFlipped(s, i) == RemoveMinimised(s1, w);
    } else {
      if MinimisedListed(s1) {
        SetMinimisedListed(s0, w);
      }
      assert MinimisedFlipped(s, i) == SetMinimised(s0, w);
    }
  }

  /**
   * `toggle_minimised` keeps every fullscreen record shown and every
   * minimised record listed, in every state: it clears w's fullscreen flag
   * before minimising w, and lists w when it minimises it.
   */
  lemma MinimisedToggledKeepsShown(s: WmState, w: Window)
    requires WellFormed(s)
    ensures var r := MinimisedToggled(s, w);
      (FullscreenShown(s.windows) ==> FullscreenShown(r.windows)) && (MinimisedListed(s) ==> MinimisedListed(r))
  {
    match IndexOf(Ids(s.windows), w)
    case None =>
    case Some(i) =>
      FlippedKeepsShown(s, i);
      UpdateKeepsShown(MinimisedFlipped(s, i));
  }

  /**
   * The flag changes of `toggle_fullscreen` keep every minimised record
   * listed; when w is shown, they keep every fullscreen record shown.
   */
  lemma SwitchedKeepsShown(s: WmState, w: Window)
    requires WellFormed(s) && w in Ids(s.windows)
    ensures var r := FullscreenSwitched(s, w);
      (MinimisedListed(s) ==> MinimisedListed(r)) &&
      (FullscreenShown(s.windows) && ShownId(s.windows, w) ==> FullscreenShown(r.windows))
  {
    var i := IndexOf(Ids(s.windows), w).value;
    assert Ids(s.windows)[i] == w;
    match LastFullscreen(s.windows)
    case None =>
      var t := Focused(s, Some(w));
      FocusedKeepsShown(s, Some(w));
      FocusedShows(s, Some(w));
      ListedByPosition(t, Reflagged(t, w, true));
      assert forall k :: 0 <= k < |s.windows| ==> t.windows[k].window == s.windows[k].window;
    case Some(full) =>
      var c := Reflagged(s, w, false);
      ListedByPosition(s, c);
      if full.window != w {
        var t := Focused(c, Some(w));
        FocusedKeepsShown(c, Some(w));
        FocusedShows(c, Some(w));
        ListedByPosition(t, Reflagged(t, w, true));
        assert forall k :: 0 <= k < |s.windows| ==> c.windows[k].window == s.windows[k].window && t.windows[k].window == s.windows[k].window;
      }
  }

  /**
   * `toggle_fullscreen` keeps every minimised record listed; with every
   * minimised record listed, it shows w before making it fullscreen, so it
   * keeps every fullscreen record shown. Both hold after a `remove_window`
   * that left a stale id in the ledger.
   */
  lemma FullscreenToggledKeepsShown(s: WmState, w: Window)
    requires WellFormed(s)
    ensures var r := FullscreenToggled(s, w);
      (MinimisedListed(s) ==> MinimisedListed(r)) &&
      (MinimisedListed(s) && FullscreenShown(s.windows) ==> FullscreenShown(r.windows))
  {
    match IndexOf(Ids(s.windows), w)
    case None =>
    case Some(i) =>
      assert Ids(s.windows)[i] == w;
      var s1 := if s.windows[i].minimised then RemoveMinimised(s, w) else s;
      if MinimisedListed(s) && s.windows[i].minimised {
        RemoveMinimisedListed(s, w);
      }
      assert MinimisedListed(s) ==> ShownId(s1.windows, w) by {
        forall k | MinimisedListed(s) && 0 <= k < |s1.windows| && s1.windows[k].window == w
          ensures !s1.windows[k].minimised
        {
          assert Ids(s.windows)[k] == Ids(s.windows)[i];
        }
      }
      RemoveMinimisedShown(s, w);
      SwitchedKeepsShown(s1, w);
      UpdateKeepsShown(FullscreenSwitched(s1, w));
  }

  // ---------------------------------------------------------------------------
  // The manager
  // ---------------------------------------------------------------------------

  /**
   * The body of `update_geometries` over the store's value: the fullscreen
   * loop, the three counting loops, then the stacking loop with the first
   * shown Tile's id as master, or the screen for the first shown Tile.
   */
  method RetileStore(ws: seq<Record>, screen: Screen) returns (out: seq<Record>)
    ensures out == Retiled(ws, screen)
  {
    out := ws;
    if ws != [] {
      var fullscreen;
      out, fullscreen := ScreenFullscreenLoop(ws, screen);
      ghost var s := out;
      assert HasFullscreen(s) == HasFullscreen(ws) by {
        assert forall k :: 0 <= k < |ws| ==> s[k].fullscreen == ws[k].fullscreen;
      }
      assert Retiled(ws, screen) == Retile(s, IsStacked, FirstWhere(s, IsTiled), Divisor(s), screen);
      var nonTiled := NonTiledCount(out, fullscreen);
      var total := |out|;
      if total > nonTiled {
        DivisorPositive(s);
        out := StackTiled(out, total - nonTiled, screen);
      } else {
        out := ScreenMaster(out, screen);
      }
    }
  }

  /** The stacking loop of `update_geometries`, with `get_master_window().unwrap()` as master. */
  method StackTiled(ws: seq<Record>, divisor: nat, screen: Screen) returns (out: seq<Record>)
    requires divisor > 0 && FirstWhere(ws, IsTiled).Some?
    ensures out == Retile(ws, IsStacked, FirstWhere(ws, IsTiled), divisor, screen)
  {
    assert IsTiled(ws[FirstWhere(ws, IsTiled).value]);
    var master := MasterWindow(ws).value;
    var hh := SliceHeight(screen.height, divisor);
    out := RestackLoop(ws, IsStacked, master, screen, hh);
  }

  /** The fallback of `update_geometries`: the first shown Tile (`get_master_index`) gets the screen. */
  method ScreenMaster(ws: seq<Record>, screen: Screen) returns (out: seq<Record>)
    ensures out == Retile(ws, IsStacked, FirstWhere(ws, IsTiled), 0, screen)
  {
    out := ws;
    match FirstWhere(ws, IsTiled) {
      case None =>
      case Some(i) =>
        out := out[i := out[i].(geometry := ScreenGeometry(screen))];
    }
  }

  /** The `non_tiled_windows` sum of `update_geometries`, from the three counting loops. */
  method NonTiledCount(ws: seq<Record>, fullscreen: bool) returns (nonTiled: nat)
    requires fullscreen == HasFullscreen(ws)
    ensures Divisor(ws) == if |ws| > nonTiled then |ws| - nonTiled else 0
  {
    var floating := CollectIdsWhere(ws, IsShownFloat);
    var minimisedTiled := CollectIdsWhere(ws, IsMinimisedTile);
    var minimisedFloating := CollectIdsWhere(ws, IsMinimisedFloat);
    nonTiled := |floating| + |minimisedTiled| + |minimisedFloating| + 1 + (if fullscreen then 1 else 0);
  }

  class FullscreenWM {
    var windows: seq<Record>
    /** `minimised_windows`: the minimised ids in the order they were minimised. */
    var minimisedWindows: seq<Window>
    var screen: Screen
    /** `index_foused_window`. */
    var focus: Option<nat>

    function State(): WmState
      reads this
    {
      WmState(windows, minimisedWindows, screen, focus)
    }

    ghost predicate Valid()
      reads this
    {
      WellFormed(State())
    }

    /** `is_managed`: w is among `get_windows()`. */
    predicate IsManaged(w: Window)
      reads this
    {
      w in Ids(windows)
    }

    /** `is_minimised`: w is in the ledger. */
    predicate IsMinimised(w: Window)
      reads this
    {
      w in minimisedWindows
    }

    constructor (screen: Screen)
      ensures Valid() && LedgerAgrees(windows, minimisedWindows) && FullscreenFocused(State()) && FullscreenShown(windows) && MinimisedListed(State())
      ensures State() == WmState([], [], screen, None)
    {
      windows := [];
      minimisedWindows := [];
      this.screen := screen;
      focus := None;
    }

    method GetWindows() returns (ids: seq<Window>)
      ensures ids == Ids(windows)
    {
      ids := CollectIds(windows);
    }

    /** `get_focused_window`: the id at the focus index; nothing for an empty store. */
    function GetFocusedWindow(): (r: Option<Window>)
      requires Valid()
      reads this
      ensures r.Some? <==> focus.Some?
      ensures r.Some? ==> r.value == windows[focus.value].window
    {
      if windows != [] then FocusedOf(windows, focus) else None
    }

    /** `get_floating_windows`: the shown Float records' ids, in store order. */
    method GetFloatingWindows() returns (ids: seq<Window>)
      ensures ids == IdsWhere(windows, IsShownFloat)
    {
      ids := CollectIdsWhere(windows, IsShownFloat);
    }

    method GetMinimisedWindows() returns (ids: seq<Window>)
      ensures ids == minimisedWindows
    {
      ids := minimisedWindows;
    }

    /** `get_fullscreen_window`: the loop that keeps the id of the last fullscreen record. */
    method GetFullscreenWindow() returns (r: Option<Window>)
      ensures r == FullscreenWindow(windows)
    {
      r := None;
      var i := 0;
      while i < |windows|
        invariant i <= |windows|
        invariant r == FullscreenWindow(windows[..i])
      {
        assert windows[..i + 1][..i] == windows[..i];
        if windows[i].fullscreen {
          r := Some(windows[i].window);
        }
        i := i + 1;
      }
      assert windows[..|windows|] == windows;
    }

    method GetWindowLayout() returns (l: Layout)
      requires Valid()
      ensures l == WindowLayout(windows, focus)
    {
      if windows == [] {
        return EmptyLayout;
      }
      var full := FindFullscreen(windows);
      match full {
        case Some(f) =>
          l := Layout(Some(f.window), [(f.window, f.geometry)]);
        case None =>
          var shown := CollectEntries(windows, IsShown);
          match focus {
            case None =>
              l := Layout(None, shown);
            case Some(index) =>
              var focused := windows[index];
              match FirstWhere(windows, IsFloat) {
                case None =>
                case Some(p) =>
                  if p >= index && focused.mode == Float {
                    match IndexOf(shown, (focused.window, focused.geometry)) {
                      case None =>
                      case Some(at) =>
                        shown := RemoveAt(shown, at) + [(focused.window, focused.geometry)];
                    }
                  }
              }
              l := Layout(Some(focused.window), shown);
          }
      }
    }

    /** `update_geometries`. */
    method UpdateGeometries()
      modifies this
      ensures State() == Update(old(State()))
    {
      windows := RetileStore(windows, screen);
    }

    /** The `iter_mut().filter(fullscreen)` loop clearing every flag; `any` says whether it met one. */
    method ClearFullscreenFlags() returns (any: bool)
      modifies this
      ensures State() == Cleared(old(State())) && any == HasFullscreen(old(windows))
    {
      windows, any := ClearFullscreen(windows);
    }

    method RemoveMinimisedWindow(w: Window)
      modifies this
      ensures State() == RemoveMinimised(old(State()), w)
    {
      match IndexOf(minimisedWindows, w) {
        case None =>
        case Some(i) =>
          minimisedWindows := RemoveAt(minimisedWindows, i);
          match IndexOf(Ids(windows), w) {
            case None =>
            case Some(j) =>
              windows := windows[j := windows[j].(minimised := false)];
          }
      }
    }

    method SetMinimisedWindow(w: Window)
      modifies this
      ensures State() == SetMinimised(old(State()), w)
    {
      match IndexOf(Ids(windows), w) {
        case None =>
        case Some(i) =>
          windows := windows[i := windows[i].(minimised := true)];
          minimisedWindows := minimisedWindows + [windows[i].window];
      }
    }

    method SetFullscreenWindow(w: Window)
      modifies this
      ensures State() == Reflagged(old(State()), w, true)
    {
      windows := MarkFullscreen(windows, w, true);
    }

    method RemoveFullscreenWindow(w: Window)
      modifies this
      ensures State() == Reflagged(old(State()), w, false)
    {
      windows := MarkFullscreen(windows, w, false);
    }

    method AddWindow(info: Info) returns (r: Outcome)
      requires Valid()
      modifies this
      ensures r == if old(IsManaged(info.window)) then Err(ManagedWindow(info.window)) else Ok
      ensures r.Err? ==> State() == old(State())
      ensures r.Ok? ==> State() == Added(old(State()), info)
      ensures Valid()
    {
      if info.window in Ids(windows) {
        return Err(ManagedWindow(info.window));
      }
      var _ := ClearFullscreenFlags();
      InsertRecord(info);
      if info.mode == Tile {
        UpdateGeometries();
      }
      r := Ok;
    }

    /** The `push` of a Float, or the `insert` of a Tile at `get_partion_index` (`push` when there is no Float). */
    method InsertRecord(info: Info)
      modifies this
      ensures State() == Inserted(old(State()), info)
    {
      var record := FromInfo(info);
      ghost var at := AddedAt(windows, info);
      InsertAtEnd(windows, record);
      if info.mode == Float {
        windows := windows + [record];
        focus := Some(|windows| - 1);
      } else {
        match FirstWhere(windows, IsFloat) {
          case None =>
            assert at == |windows|;
            windows := windows + [record];
            focus := Some(|windows| - 1);
          case Some(p) =>
            assert at == p;
            windows := InsertAt(windows, p, record);
            focus := Some(p);
        }
      }
    }

    method RemoveWindow(w: Window) returns (r: Outcome)
      requires Valid()
      modifies this
      ensures r == if old(IsManaged(w)) then Ok else Err(UnknownWindow(w))
      ensures r.Err? ==> State() == old(State())
      ensures r.Ok? ==> State() == Removed(old(State()), w)
      ensures Valid()
    {
      match IndexOf(Ids(windows), w) {
        case None =>
          return Err(UnknownWindow(w));
        case Some(i) =>
          var gone := windows[i];
          windows := RemoveAt(windows, i);
          if gone.minimised {
            RemoveFullscreenWindow(gone.window);
          }
          if gone.mode == Tile {
            UpdateGeometries();
          }
          focus := FocusAfterRemove(focus, i);
          r := Ok;
      }
    }

    method FocusWindow(window: Option<Window>) returns (r: Outcome)
      requires Valid()
      modifies this
      ensures State() == Focused(old(State()), window) && Valid()
      ensures r == if window.Some? && !old(IsManaged(window.value)) then Err(UnknownWindow(window.value)) else Ok
    {
      match window {
        case None =>
          focus := None;
          r := Ok;
        case Some(gw) =>
          match IndexOf(Ids(windows), gw) {
            case None =>
              r := Err(UnknownWindow(gw));
            case Some(i) =>
              var target := windows[i];
              if !target.fullscreen {
                focus := Some(i);
                var _ := ClearFullscreenFlags();
                if target.minimised {
                  RemoveMinimisedWindow(gw);
                }
              }
              r := Ok;
          }
      }
    }

    method CycleFocus(dir: Direction)
      requires Valid()
      modifies this
      ensures State() == Cycled(old(State()), dir) && Valid()
    {
      if |windows| > 1 {
        match focus {
          case None =>
            focus := Some(0);
          case Some(index) =>
            match dir {
              case Prev =>
                if index != 0 {
                  focus := Some(index - 1);
                } else {
                  focus := Some(|windows| - 1);
                }
              case Next =>
                var last := |windows| - 1;
                if index != last {
                  focus := Some(index + 1);
                } else {
                  focus := Some(0);
                }
            }
        }
      } else if |windows| == 1 {
        focus := Some(0);
      }
      assert focus == CycledFocus(old(focus), |windows|, dir);
      match focus {
        case None =>
        case Some(index) =>
          RemoveMinimisedWindow(windows[index].window);
      }
      var any := ClearFullscreenFlags();
      if any {
        UpdateGeometries();
      }
    }

    method ResizeScreen(screen: Screen)
      requires Valid()
      modifies this
      ensures State() == Resized(old(State()), screen) && Valid()
    {
      this.screen := screen;
      UpdateGeometries();
    }

    method SwapWithMaster(w: Window) returns (r: Outcome)
      requires Valid()
      modifies this
      ensures State() == SwappedWithMaster(old(State()), w) && Valid()
      ensures r == if !old(IsManaged(w)) then Err(UnknownWindow(w))
                   else if old(windows)[IndexOf(old(Ids(windows)), w).value].mode != Tile then Err(NoTiledWindow(w))
                   else Ok
    {
      var _ := ClearFullscreenFlags();
      ghost var c := State();
      match IndexOf(Ids(windows), w) {
        case None =>
          r := Err(UnknownWindow(w));
        case Some(wi) =>
          var target := windows[wi];
          if target.mode == Tile {
            match FirstWhere(windows, IsTiled) {
              case None =>
                r := Ok;
              case Some(mi) =>
                assert IsTiled(windows[mi]) by {
                  assert Where(windows, IsTiled)[mi];
                }
                r := SwapIntoMaster(mi, wi);
            }
          } else {
            r := Err(NoTiledWindow(w));
          }
      }
    }

    /** The part of `swap_with_master` after the checks, with the master at `mi` and w at `wi`. */
    method SwapIntoMaster(mi: nat, wi: nat) returns (r: Outcome)
      requires Valid() && !HasFullscreen(windows) && mi < |windows| && wi < |windows|
      requires IsTiled(windows[mi]) && windows[wi].mode == Tile
      modifies this
      ensures State() == MasterSwapped(old(State()), mi, wi) && Valid() && r == Ok
    {
      var w := windows[wi].window;
      if windows[wi].minimised {
        RemoveMinimisedWindow(w);
      }
      ghost var u := State();
      windows := Swap(windows, mi, wi);
      assert State() == TradedPlaces(u, mi, wi);
      UpdateGeometries();
      assert w in Ids(windows) by {
        assert Ids(u.windows)[wi] == w;
      }
      r := FocusWindow(Some(w));
    }

    method SwapWindows(dir: Direction)
      requires Valid()
      modifies this
      ensures State() == SwappedWindows(old(State()), dir) && Valid()
    {
      var _ := ClearFullscreenFlags();
      ghost var c := State();
      if |windows| > 1 {
        match focus {
          case None =>
          case Some(index) =>
            if windows[index].mode == Tile {
              match TileNeighbour(windows, index, dir) {
                case None =>
                case Some(j) =>
                  focus := Some(j);
                  windows := Swap(windows, index, j);
                  assert State() == TradedPlaces(c.(focus := Some(j)), index, j);
                  UpdateGeometries();
              }
              match focus {
                case None =>
                case Some(f) =>
                  RemoveMinimisedWindow(windows[f].window);
              }
            }
        }
      }
    }

    method ToggleFloating(w: Window) returns (r: Outcome)
      requires Valid()
      modifies this
      ensures State() == FloatToggled(old(State()), w) && Valid()
      ensures r == if old(IsManaged(w)) then Ok else Err(UnknownWindow(w))
    {
      match IndexOf(Ids(windows), w) {
        case None =>
          r := Err(UnknownWindow(w));
        case Some(i) =>
          var rec := windows[i];
          var info := ToggledInfo(rec);
          if rec.fullscreen {
            ReAddedIds(State(), w, info);
            var _ := RemoveWindow(rec.window);
            var _ := AddWindow(info);
          } else {
            if rec.minimised {
              RemoveMinimisedWindow(rec.window);
            }
            var focusedWindow: Option<Window> := None;
            var fullscreenWindow := GetFullscreenWindow();
            match focus {
              case None =>
              case Some(index) =>
                focusedWindow := Some(windows[index].window);
            }
            ReAddedIds(State(), w, info);
            var _ := RemoveWindow(rec.window);
            var _ := AddWindow(info);
            RestoreFocusAndFullscreen(focusedWindow, fullscreenWindow);
          }
          r := Ok;
      }
    }

    /** The end of `toggle_floating`: refocus, make the remembered id fullscreen again, retile. */
    method RestoreFocusAndFullscreen(focusedWindow: Option<Window>, fullscreenWindow: Option<Window>)
      requires Valid() && !HasFullscreen(windows)
      modifies this
      ensures State() == Restored(old(State()), focusedWindow, fullscreenWindow) && Valid()
    {
      var _ := FocusWindow(focusedWindow);
      match fullscreenWindow {
        case None =>
        case Some(f) =>
          SetFullscreenWindow(f);
      }
      UpdateGeometries();
    }

    method SetWindowGeometry(w: Window, g: Geometry) returns (r: Outcome)
      requires Valid()
      modifies this
      ensures State() == GeometrySet(old(State()), w, g) && Valid()
      ensures r == if !old(IsManaged(w)) then Err(UnknownWindow(w))
                   else if old(windows)[IndexOf(old(Ids(windows)), w).value].mode == Tile then Err(NoFloatingWindow(w))
                   else Ok
    {
      match IndexOf(Ids(windows), w) {
        case None =>
          r := Err(UnknownWindow(w));
        case Some(i) =>
          var rec := windows[i];
          if rec.mode == Tile {
            r := Err(NoFloatingWindow(rec.window));
          } else {
            if rec.minimised {
              RemoveMinimisedWindow(rec.window);
            }
            windows := windows[i := windows[i].(savedGeometry := g, geometry := g)];
            r := Ok;
          }
      }
    }

    method ToggleMinimised(w: Window) returns (r: Outcome)
      requires Valid()
      modifies this
      ensures State() == MinimisedToggled(old(State()), w) && Valid()
      ensures r == if old(IsManaged(w)) then Ok else Err(UnknownWindow(w))
    {
      match IndexOf(Ids(windows), w) {
        case None =>
          r := Err(UnknownWindow(w));
        case Some(indexWindow) =>
          FlipMinimised(indexWindow);
          UpdateGeometries();
          r := Ok;
      }
    }

    /** The flag steps of `toggle_minimised` on the record at `indexWindow`. */
    method FlipMinimised(indexWindow: nat)
      requires Valid() && indexWindow < |windows|
      modifies this
      ensures State() == MinimisedFlipped(old(State()), indexWindow)
    {
      var w := windows[indexWindow].window;
      RemoveFullscreenWindow(w);
      if IsMinimised(w) {
        RemoveMinimisedWindow(w);
      } else {
        match focus {
          case None =>
          case Some(indexFocused) =>
            if indexFocused == indexWindow {
              focus := None;
            }
        }
        SetMinimisedWindow(w);
      }
    }

    method ToggleFullscreen(w: Window) returns (r: Outcome)
      requires Valid()
      modifies this
      ensures State() == FullscreenToggled(old(State()), w) && Valid()
      ensures r == if old(IsManaged(w)) then Ok else Err(UnknownWindow(w))
    {
      match IndexOf(Ids(windows), w) {
        case None =>
          r := Err(UnknownWindow(w));
        case Some(i) =>
          var rec := windows[i];
          if rec.minimised {
            RemoveMinimisedWindow(rec.window);
          }
          SwitchFullscreen(w);
          UpdateGeometries();
          r := Ok;
      }
    }

    /** The `get_fullscreen_window` match of `toggle_fullscreen`. */
    method SwitchFullscreen(w: Window)
      requires Valid() && IsManaged(w)
      modifies this
      ensures State() == FullscreenSwitched(old(State()), w) && Valid()
    {
      var full := GetFullscreenWindow();
      match full {
        case None =>
          var _ := FocusWindow(Some(w));
          SetFullscreenWindow(w);
        case Some(fullWindow) =>
          RemoveFullscreenWindow(w);
          if fullWindow != w {
            var _ := FocusWindow(Some(w));
            SetFullscreenWindow(w);
          }
      }
    }
  }
}
