# Verified model of the cplwm window managers

The `cplwm` assignment builds a series of window managers. Each one is a
small sequential state machine that keeps:

- an ordered store of window records;
- a focus index;
- the screen size;
- in the later steps, a ledger of minimised windows (`minimised_windows`)
  and per-record `minimised` and `fullscreen` flags.

A client adds, removes, focuses, cycles, swaps and toggles windows. From
the stored state each manager computes the layout: the focused window and
the visible windows with their rectangles, bottom to top. The tiling
managers use a master/stack layout. The first tiled window (the master)
takes the left half of the screen. The others share the right half in
slices of height `h / (n - 1)`, counted from the top. This rectangle is
`Basics.MasterStack`.

The model has one Dafny module per manager and one class per manager. A
class has the fields of the Rust struct. Its methods change those fields
as the Rust methods do, with `modifies this`, and state the new state
exactly. Read-only queries and the layout are functions. The `iter_mut`
geometry loops and the collecting loops are methods with loop invariants,
proved against specification functions. Properties that relate several
operations, or that hold for all inputs, are lemmas about those
functions. The code is modelled as written, including its defects. Each
defect is stated as a lemma that exhibits it; none is fixed.

| module | manager | source |
|---|---|---|
| `FullscreenStackManager` | the window stack; the top window is shown full-screen | `a_fullscreen_wm.rs` |
| `TilingManager` | master/stack with a plain `usize` focus | `b_tiling_wm.rs` |
| `TilingOptionManager` | master/stack with an optional focus and stored geometries | `b_tiling_wm_w.rs` |
| `FloatingManager` | master/stack plus Float records shown first | `c_floating_windows.rs` |
| `MinimisingManager` | records appended at the tail, a minimised flag, a ledger | `d_minimising_windows.rs` |
| `DraftFullscreenManager` | the minimising manager plus a fullscreen flag (draft) | `e_fullscreen_windows_w.rs` |
| `FullscreenManager` | Tiles kept before Floats, minimising and fullscreen (final) | `e_fullscreen_windows.rs` |

Shared modules:

- `Basics`: ids, rectangles, the error and layout types, the master/stack
  rectangle, the circular index move.
- `Sequences`: distinctness, `IndexOf`, removal, insertion, swaps.
- `Scans`: counting marks, and the recursive neighbour scans
  `get_next_tile_index` and `get_prev_tile_index`.
- `InfoTiling`: the stacking loop over client records (`WindowWithInfo`).
- `Records`: the record with minimised, fullscreen and saved-geometry
  fields; the filtering, fullscreen and ledger helpers; the shared
  geometry update `Retile`.

The final manager (`FullscreenManager`) works on a state value `WmState`.
Its store, ledger, screen and focus are the struct's four fields. Every
class method ensures that `State()` equals a specification function of
`old(State())` (`Added`, `Removed`, `Focused`, `Cycled`, ...). It also
keeps `WellFormed`: distinct ids, the focus in range, Tiles before
Floats, and at most one fullscreen record. The lemmas then state what
those functions promise.

All source paths below are relative to `cplwm/assignment/src/` under the
repository root and are written out in full.

## Model

| member | source | states |
|---|---|---|
| Basics.MasterStackTiles | cplwm/assignment/src/b_tiling_wm.rs:182-228 | every master/stack rectangle lies within the screen, and rectangles at two different positions do not overlap |
| Basics.SliceHeight | cplwm/assignment/src/b_tiling_wm.rs:182-228 | the truncating slice height times the slice count never exceeds the screen height |
| Basics.Step | cplwm/assignment/src/c_floating_windows.rs:364-399 | the circular move keeps a valid index valid |
| Basics.StepIsModular | cplwm/assignment/src/c_floating_windows.rs:282-319 | on a valid index, Next is +1 and Prev is -1 modulo the number of windows |
| Basics.StepRoundTrip | cplwm/assignment/src/c_floating_windows.rs:282-319 | moving Next then Prev, or Prev then Next, returns to the starting index |
| Basics.CycledFocus | cplwm/assignment/src/b_tiling_wm_w.rs:333-370 | an empty store keeps its focus; a single window becomes focused at 0; with two or more, no focus becomes 0 and a focus moves one step circularly (`Step`, modular by `StepIsModular`); the result is always an index within the store |
| Sequences.FocusFollowsRemoval | cplwm/assignment/src/b_tiling_wm_w.rs:198-222 | the adjusted focus after a removal is None exactly when nothing was focused or the focused window went, and otherwise names the same window in the shortened store |
| Sequences.DistinctRemoveAt | cplwm/assignment/src/a_fullscreen_wm.rs:223-233 | removing an element keeps the ids distinct, and the removed id is gone |
| Sequences.DistinctInsertAt | cplwm/assignment/src/e_fullscreen_windows.rs:439-480 | inserting an id not yet present keeps the ids distinct |
| Sequences.SwapPermutes | cplwm/assignment/src/b_tiling_wm_w.rs:416-455 | a swap permutes the store: the multiset of elements is kept |
| Sequences.SwapInvolution | cplwm/assignment/src/b_tiling_wm_w.rs:416-455 | swapping the same two positions twice gives the store back |
| Scans.NeighbourIsNearest | cplwm/assignment/src/d_minimising_windows.rs:97-138 | the recursive scan started at the focused position finds the nearest other eligible position in its direction, and finds nothing exactly when there is none |
| Scans.CountPrefixBound | cplwm/assignment/src/e_fullscreen_windows.rs:188-262 | a marked position has fewer marked positions before it than the whole mask has |
| Records.Neighbour | cplwm/assignment/src/d_minimising_windows.rs:97-138 | the neighbour is None exactly when no other position is eligible; otherwise it is an eligible position other than the start |
| Records.FirstWhere | cplwm/assignment/src/d_minimising_windows.rs:141-147 | `position` finds a satisfying record with none before it, or None when no record satisfies the test |
| Records.CollectIdsWhere | cplwm/assignment/src/d_minimising_windows.rs:150-156 | the filter loop collects exactly the ids of the matching records in store order |
| Records.CollectEntries | cplwm/assignment/src/d_minimising_windows.rs:378-406 | the layout loop pushes exactly the (id, geometry) pairs of the matching records in store order |
| Records.EntriesWhere | cplwm/assignment/src/d_minimising_windows.rs:378-406 | every matching record's entry is listed, and every listed entry is a matching record's |
| Records.Flipped | cplwm/assignment/src/d_minimising_windows.rs:613-632 | the in-place flip changes the mode; Tile to Float restores the saved geometry; the id, saved geometry and flags are kept |
| Records.FlippedTwice | cplwm/assignment/src/d_minimising_windows.rs:613-632 | flipping twice restores the mode and the whole record, except that its geometry becomes the saved one |
| Records.Unlisted | cplwm/assignment/src/d_minimising_windows.rs:224-232 | `minimised_windows.remove(i)` at w's position takes exactly one occurrence of w out, and nothing when w is absent |
| Records.UnlistedRemoves | cplwm/assignment/src/d_minimising_windows.rs:224-232 | from a distinct ledger, unlisting w removes w, keeps every other id, and stays distinct |
| Records.UnlistAppended | cplwm/assignment/src/d_minimising_windows.rs:714-747 | appending a fresh id to the ledger and unlisting it again gives the ledger back |
| Records.RestackLoop | cplwm/assignment/src/d_minimising_windows.rs:162-219 | the `iter_mut` loop with its running `y_point` gives every participating record exactly its stacking rectangle and leaves the others alone |
| Records.RestackedIsMasterStack | cplwm/assignment/src/d_minimising_windows.rs:162-219 | with distinct ids, N >= 2 participants and the first of them as master, the participant of rank r gets the master/stack rectangle of r among N; non-participants are untouched |
| Records.RestackedWithoutMaster | cplwm/assignment/src/d_minimising_windows.rs:162-219 | when no participant has the master's id, every participant takes a right-half slice at its rank, none the left half |
| Records.Retile | cplwm/assignment/src/e_fullscreen_windows.rs:188-262 | the geometry update changes only geometries and keeps the ids in order |
| Records.RetileIsMasterStack | cplwm/assignment/src/e_fullscreen_windows.rs:188-262 | with N >= 2 participants, the first as master and N - 1 slices, the participant of rank r gets the master/stack rectangle of r among N |
| Records.RetileWithoutMaster | cplwm/assignment/src/d_minimising_windows.rs:162-219 | when the master does not take part, every participant takes a right-half slice at its rank |
| Records.RetileSingle | cplwm/assignment/src/e_fullscreen_windows.rs:255-260 | without slices the master gets the screen and no other record changes |
| Records.RetileKeepsOthers | cplwm/assignment/src/e_fullscreen_windows.rs:188-262 | a record outside the tiling that is not the master is left as it was |
| Records.ClearFullscreen | cplwm/assignment/src/e_fullscreen_windows_w.rs:319-340 | the clearing loop clears every fullscreen flag and reports whether it met one |
| Records.NoFullscreenClears | cplwm/assignment/src/e_fullscreen_windows.rs:439-480 | after clearing, no record is fullscreen, clearing is idempotent, and it changes nothing when no record was fullscreen |
| Records.MarkFullscreen | cplwm/assignment/src/e_fullscreen_windows_w.rs:236-240 | `set_fullscreen_window(w)` sets the flag exactly on the records with id w |
| Records.WithFullscreenOnly | cplwm/assignment/src/e_fullscreen_windows.rs:323-327 | in a store without a fullscreen record, setting w's flag makes exactly w's record fullscreen |
| Records.ScreenFullscreenLoop | cplwm/assignment/src/e_fullscreen_windows_w.rs:149-213 | the first geometry loop gives every fullscreen record the screen and reports whether there was one |
| Records.ScreenFullscreenNone | cplwm/assignment/src/e_fullscreen_windows_w.rs:149-213 | without a fullscreen record the screen loop changes nothing |
| Records.FindFullscreen | cplwm/assignment/src/e_fullscreen_windows_w.rs:825-831 | the overwriting loop of `get_fullscreen_window` keeps the last fullscreen record |
| Records.LastFullscreen | cplwm/assignment/src/e_fullscreen_windows_w.rs:825-831 | the last fullscreen record is found exactly when some record is fullscreen, and it is a fullscreen record of the store |
| Records.LastFullscreenUnique | cplwm/assignment/src/e_fullscreen_windows.rs:1115-1121 | with at most one fullscreen record, the lookup returns that record |
| Records.AtMostOneRemoveAt | cplwm/assignment/src/e_fullscreen_windows.rs:491-532 | removing a record keeps at most one fullscreen record |
| Records.AtMostOneSwap | cplwm/assignment/src/e_fullscreen_windows.rs:846-899 | swapping two records keeps at most one fullscreen record |
| Records.GeometryOnly | cplwm/assignment/src/d_minimising_windows.rs:162-219 | a rewrite of geometries only keeps the ids, the fullscreen facts and the ledger's agreement with the flags |
| Records.SwapAgrees | cplwm/assignment/src/e_fullscreen_windows.rs:846-899 | swapping two records keeps the ledger's agreement with the minimised flags, both ways |
| Records.NoFullscreenKeepsLedger | cplwm/assignment/src/e_fullscreen_windows_w.rs:778-814 | clearing the fullscreen flags keeps the ledger's agreement with the minimised flags |
| Records.CountByKind | cplwm/assignment/src/d_minimising_windows.rs:162-219 | every record is Float, a minimised Tile or a shown Tile, so in every prefix the three counts add up to its length |
| InfoTiling.CollectIds | cplwm/assignment/src/a_fullscreen_wm.rs:171-182 | the `get_windows` loop returns the ids in store order |
| InfoTiling.StackLayoutLoop | cplwm/assignment/src/b_tiling_wm.rs:182-228 | the read-only layout loop with its running `y_point` pushes, per record in store order, the left half for the master's id and the next right-half slice for any other |
| InfoTiling.RestackLoop | cplwm/assignment/src/b_tiling_wm_w.rs:72-119 | the `iter_mut` loop writes the same rectangles into the records and changes nothing else |
| InfoTiling.StackedIsMasterStack | cplwm/assignment/src/b_tiling_wm.rs:182-228 | with distinct ids and the first record as master, the record at k gets the master/stack rectangle of k |
| InfoTiling.WithMode | cplwm/assignment/src/c_floating_windows.rs:167-228 | the mode filter keeps exactly the records of that mode |
| InfoTiling.DistinctWithMode | cplwm/assignment/src/c_floating_windows.rs:167-228 | filtering keeps ids distinct |
| InfoTiling.WithModePartition | cplwm/assignment/src/c_floating_windows.rs:167-228 | the Float and the Tile filters split the ids between them: together they hold every id exactly once |
| InfoTiling.WithModeHead | cplwm/assignment/src/c_floating_windows.rs:167-228 | the first record survives a filter on its own mode as the filter's first record |
| InfoTiling.CollectFloating | cplwm/assignment/src/c_floating_windows.rs:176-186 | the first layout loop pushes every Float record with its own geometry, in store order |
| InfoTiling.FocusedOf | cplwm/assignment/src/c_floating_windows.rs:115-124 | the focused id is present exactly when the focus is, and then it is the id at that index |
| FullscreenStackManager.StackLayout | cplwm/assignment/src/a_fullscreen_wm.rs:252-270 | the layout is empty exactly for an empty stack; otherwise it is one entry, the top window at the screen's geometry, and the top window is focused |
| FullscreenStackManager.FullscreenWM.constructor | cplwm/assignment/src/a_fullscreen_wm.rs:159-164 | an empty stack on the given screen |
| FullscreenStackManager.FullscreenWM.GetWindows | cplwm/assignment/src/a_fullscreen_wm.rs:171-182 | the ids, bottom to top |
| FullscreenStackManager.FullscreenWM.AddWindow | cplwm/assignment/src/a_fullscreen_wm.rs:207-216 | always `Ok`; an unmanaged window is pushed on top and becomes the focus; a managed one changes nothing |
| FullscreenStackManager.FullscreenWM.RemoveWindow | cplwm/assignment/src/a_fullscreen_wm.rs:223-233 | `UnknownWindow` for an unmanaged id; otherwise exactly that record goes and the others keep their order |
| FullscreenStackManager.FullscreenWM.FocusWindow | cplwm/assignment/src/a_fullscreen_wm.rs:289-317 | None is an `Ok` no-op; an unmanaged id is `UnknownWindow`; otherwise the record moves to the top (the others keep their order, the multiset is kept) and is focused |
| TilingManager.TilingLayoutShape | cplwm/assignment/src/b_tiling_wm.rs:182-249 | two or more records are shown at their master/stack rectangles in store order with the indexed one focused; a single record fills the screen when the index is 0; an empty store or a stale index gives the empty layout |
| TilingManager.TillingWM.constructor | cplwm/assignment/src/b_tiling_wm.rs:104-111 | no windows, index 0, and no focused window |
| TilingManager.TillingWM.GetWindows | cplwm/assignment/src/b_tiling_wm.rs:113-119 | the ids in store order |
| TilingManager.TillingWM.GetWindowLayout | cplwm/assignment/src/b_tiling_wm.rs:182-249 | the loop computes exactly `TilingLayout` |
| TilingManager.TillingWM.AddWindow | cplwm/assignment/src/b_tiling_wm.rs:132-141 | `ManagedWindow` for a managed id; otherwise the record is appended and the index moves to it, so it is focused |
| TilingManager.TillingWM.RemoveWindow | cplwm/assignment/src/b_tiling_wm.rs:147-159 | `UnknownWindow` for an unmanaged id; otherwise the record goes and the index is decremented unless the removed position was 0 |
| TilingManager.TillingWM.FocusWindow | cplwm/assignment/src/b_tiling_wm.rs:252-268 | None is an `Ok` no-op; an unmanaged id is `UnknownWindow`; otherwise the index names the window |
| TilingManager.TillingWM.CycleFocus | cplwm/assignment/src/b_tiling_wm.rs:271-295 | with two or more records the index moves circularly and stays valid; otherwise it does not move |
| TilingManager.TillingWM.SwapWithMaster | cplwm/assignment/src/b_tiling_wm.rs:326-335 | `UnknownWindow` for an unmanaged id; otherwise w trades places with the first record and is then both master and focused |
| TilingManager.IndexAfterRemove | cplwm/assignment/src/b_tiling_wm.rs:147-159 | the index is kept when position 0 is removed and decremented otherwise |
| TilingManager.RemovalFocusDrift | cplwm/assignment/src/b_tiling_wm.rs:147-159 | after removing another window, the index still names the focused window exactly when the removed position lies strictly between the master and the focus |
| TilingManager.StaleIndexScenario | cplwm/assignment/src/b_tiling_wm.rs:147-159 | with windows 1 and 2 and 2 focused, removing 1 leaves the index past the end: the layout is empty although window 2 is still managed |
| TilingOptionManager.RetiledIsMasterStack | cplwm/assignment/src/b_tiling_wm_w.rs:72-119 | with distinct ids, retiling changes only geometries and gives position k the master/stack rectangle of k (one record: the screen) |
| TilingOptionManager.LayoutMatchesRetiled | cplwm/assignment/src/b_tiling_wm_w.rs:228-308 | the layout reports, for each record in store order, the rectangle retiling would store, which is its master/stack rectangle; the focus is read from the index |
| TilingOptionManager.TillingWM.constructor | cplwm/assignment/src/b_tiling_wm_w.rs:155-163 | empty, nothing focused |
| TilingOptionManager.TillingWM.GetWindows | cplwm/assignment/src/b_tiling_wm_w.rs:165-167 | the ids in store order |
| TilingOptionManager.TillingWM.CalculateTiledGeometries | cplwm/assignment/src/b_tiling_wm_w.rs:72-119 | the store becomes `Retiled`; the focus and the screen are kept |
| TilingOptionManager.TillingWM.GetWindowLayout | cplwm/assignment/src/b_tiling_wm_w.rs:228-308 | the loop computes exactly `TilingLayout` |
| TilingOptionManager.TillingWM.AddWindow | cplwm/assignment/src/b_tiling_wm_w.rs:183-193 | `ManagedWindow` for a managed id; otherwise the record is appended, the store retiled, and the new window focused |
| TilingOptionManager.TillingWM.RemoveWindow | cplwm/assignment/src/b_tiling_wm_w.rs:198-222 | `UnknownWindow` for an unmanaged id; otherwise the record goes, the focus is cleared, decremented or kept so that it follows its window, and the stored geometries stay |
| TilingOptionManager.TillingWM.FocusWindow | cplwm/assignment/src/b_tiling_wm_w.rs:312-329 | None clears the focus; an unmanaged id is `UnknownWindow`; otherwise the focus names the window |
| TilingOptionManager.TillingWM.CycleFocus | cplwm/assignment/src/b_tiling_wm_w.rs:333-370 | the focus moves as `CycledFocus` says |
| TilingOptionManager.TillingWM.SwapWithMaster | cplwm/assignment/src/b_tiling_wm_w.rs:401-411 | `UnknownWindow` for an unmanaged id; otherwise w trades places with the first record, the store is retiled, and w is the master and focused |
| TilingOptionManager.TillingWM.SwapWindows | cplwm/assignment/src/b_tiling_wm_w.rs:416-455 | with two or more records and a focus, the focused record trades places with its circular neighbour, the focus follows it and the store is retiled; otherwise nothing changes |
| FloatingManager.SlotsWithMaster | cplwm/assignment/src/c_floating_windows.rs:187-228 | a Tile master leading distinct records gets the left half, and the k-th record slice k - 1 |
| FloatingManager.SlotsWithoutMaster | cplwm/assignment/src/c_floating_windows.rs:187-228 | when the master id is not a Tile record's, the k-th Tile record takes slice k |
| FloatingManager.FirstNotTiled | cplwm/assignment/src/c_floating_windows.rs:187-228 | a Float first record's id is not among the Tile records |
| FloatingManager.TileEntriesAtSlots | cplwm/assignment/src/c_floating_windows.rs:187-228 | the stacking loop puts the k-th Tile record at its `TileSlot` |
| FloatingManager.FloatingLayoutOrder | cplwm/assignment/src/c_floating_windows.rs:167-228 | with two or more distinct records, the Float records come first in store order at their own geometries, then the Tile records in store order at their slots; slices divide the height by all records minus one |
| FloatingManager.FloatingLayoutShowsAll | cplwm/assignment/src/c_floating_windows.rs:167-260 | every record is shown exactly once whatever the modes; one record fills the screen when it tiles and keeps its geometry when it floats; an empty store shows nothing |
| FloatingManager.FloatingWM.constructor | cplwm/assignment/src/c_floating_windows.rs:98-104 | empty, nothing focused |
| FloatingManager.FloatingWM.GetWindows | cplwm/assignment/src/c_floating_windows.rs:106-112 | the ids in store order |
| FloatingManager.FloatingWM.GetWindowLayout | cplwm/assignment/src/c_floating_windows.rs:167-260 | the two loops compute exactly `FloatingLayout` |
| FloatingManager.FloatingWM.AddWindow | cplwm/assignment/src/c_floating_windows.rs:127-136 | `ManagedWindow` for a managed id; otherwise the record is appended unchanged and focused |
| FloatingManager.FloatingWM.RemoveWindow | cplwm/assignment/src/c_floating_windows.rs:138-159 | `UnknownWindow` for an unmanaged id; otherwise the record goes, a focus on it becomes None, and any other focus is decremented, so it stays on its window exactly when the removed record came before it |
| FloatingManager.FloatingWM.FocusWindow | cplwm/assignment/src/c_floating_windows.rs:262-279 | None clears the focus; an unmanaged id is `UnknownWindow`; otherwise the focus names the window |
| FloatingManager.FloatingWM.CycleFocus | cplwm/assignment/src/c_floating_windows.rs:282-319 | the focus moves as `CycledFocus` says, over every record whatever its mode |
| FloatingManager.FloatingWM.SwapWithMaster | cplwm/assignment/src/c_floating_windows.rs:350-359 | `UnknownWindow` for an unmanaged id; otherwise w trades places with the first record and is the master and focused |
| FloatingManager.FloatingWM.SwapWindows | cplwm/assignment/src/c_floating_windows.rs:364-399 | with two or more records and a focus, the focused record trades places with its circular neighbour and the focused window stays focused; otherwise nothing changes |
| FloatingManager.RemoveAfterFocusScenario | cplwm/assignment/src/c_floating_windows.rs:138-159 | with 1, 2, 3 added and 2 focused, removing 3 moves the focus to 1 |
| MinimisingManager.DivisorCountsTiled | cplwm/assignment/src/d_minimising_windows.rs:162-219 | the slice count is one less than the number of shown Tile records, or 0 with at most one |
| MinimisingManager.Retiled | cplwm/assignment/src/d_minimising_windows.rs:162-219 | retiling changes only geometries and keeps the ids in order |
| MinimisingManager.RetiledKeepsFloats | cplwm/assignment/src/d_minimising_windows.rs:162-219 | Float records keep their geometry |
| MinimisingManager.RetiledIsMasterStack | cplwm/assignment/src/d_minimising_windows.rs:162-219 | with N >= 2 shown Tile records and the first Tile record shown, the shown Tile record of rank r gets the master/stack rectangle of r among N |
| MinimisingManager.RetiledMinimisedMaster | cplwm/assignment/src/d_minimising_windows.rs:519-531 | when the first Tile record is minimised it is still the master id; no record gets the left half, and every shown Tile takes a right-half slice at its rank |
| MinimisingManager.RetiledSingle | cplwm/assignment/src/d_minimising_windows.rs:162-219 | with at most one shown Tile record, the first Tile record gets the screen and nothing else moves |
| MinimisingManager.RetiledKeepsLedger | cplwm/assignment/src/d_minimising_windows.rs:162-219 | retiling keeps the ledger's agreement with the flags |
| MinimisingManager.RetileStore | cplwm/assignment/src/d_minimising_windows.rs:162-219 | the counting and the stacking loop compute exactly `Retiled` |
| MinimisingManager.EntryKindsExclusive | cplwm/assignment/src/d_minimising_windows.rs:378-406 | with distinct ids, no entry is both a shown Tile's and a shown Float's |
| MinimisingManager.LayoutShowsUnminimised | cplwm/assignment/src/d_minimising_windows.rs:378-406 | a record's entry is in the layout exactly when the record is not minimised; every entry is some shown record's; no shown Float entry comes before a shown Tile entry |
| MinimisingManager.LayoutTiles | cplwm/assignment/src/d_minimising_windows.rs:378-406 | after a retiling with a shown first Tile, each shown Tile appears at its master/stack rectangle |
| MinimisingManager.SwappedStore | cplwm/assignment/src/d_minimising_windows.rs:533-590 | the swaps exchange the two ids and change nothing but geometries otherwise |
| MinimisingManager.ToggledStore | cplwm/assignment/src/d_minimising_windows.rs:714-747 | toggling keeps the ids and the modes |
| MinimisingManager.ToggleKeepsLedger | cplwm/assignment/src/d_minimising_windows.rs:714-747 | from an agreeing state, w's record is minimised afterwards exactly when w is in the new ledger, exactly when it was shown before; the ledger still agrees; no other flag moves |
| MinimisingManager.ToggleTwice | cplwm/assignment/src/d_minimising_windows.rs:714-747 | minimising a shown window and showing it again restores the ledger and every flag |
| MinimisingManager.Revealed | cplwm/assignment/src/d_minimising_windows.rs:408-431 | focusing keeps the ids and the modes |
| MinimisingManager.RevealShows | cplwm/assignment/src/d_minimising_windows.rs:408-431 | from an agreeing state the focused window is shown afterwards, out of the ledger, and the ledger still agrees |
| MinimisingManager.SwapMakesMaster | cplwm/assignment/src/d_minimising_windows.rs:533-547 | after swapping a Tile record with the first Tile record, retiling and the focus step, the first Tile record is the one moved there |
| MinimisingManager.PurgedStore | cplwm/assignment/src/d_minimising_windows.rs:224-232 | `remove_minimised_window(w)` changes only a minimised flag, and only that of the record at w's position in the ledger |
| MinimisingManager.RemovedStore | cplwm/assignment/src/d_minimising_windows.rs:330-368 | the remaining ids are the old ones without w, in order |
| MinimisingManager.MinimisingWM.constructor | cplwm/assignment/src/d_minimising_windows.rs:276-283 | empty store and ledger, nothing focused, the ledger agreeing |
| MinimisingManager.MinimisingWM.GetWindows | cplwm/assignment/src/d_minimising_windows.rs:285-291 | the ids in store order |
| MinimisingManager.MinimisingWM.GetFloatingWindows | cplwm/assignment/src/d_minimising_windows.rs:598-606 | the Float records' ids, minimised or not, in store order |
| MinimisingManager.MinimisingWM.GetMinimisedWindows | cplwm/assignment/src/d_minimising_windows.rs:669-671 | the ledger, in the order of minimising |
| MinimisingManager.MinimisingWM.GetWindowLayout | cplwm/assignment/src/d_minimising_windows.rs:378-406 | exactly `MinimisingLayout` |
| MinimisingManager.MinimisingWM.CalculateTiledGeometries | cplwm/assignment/src/d_minimising_windows.rs:162-219 | the store becomes `Retiled`; ledger, screen and focus are kept |
| MinimisingManager.MinimisingWM.AddWindow | cplwm/assignment/src/d_minimising_windows.rs:307-327 | `ManagedWindow` for a managed id; otherwise the record is appended unminimised and focused, the store is retiled only for a Tile, and an agreeing ledger still agrees |
| MinimisingManager.MinimisingWM.RemoveMinimisedWindow | cplwm/assignment/src/d_minimising_windows.rs:224-232 | the ledger loses w and the store becomes `PurgedStore` |
| MinimisingManager.MinimisingWM.RemoveWindow | cplwm/assignment/src/d_minimising_windows.rs:330-368 | `UnknownWindow` for an unmanaged id; otherwise the store and ledger become `RemovedStore` and `RemovedLedger`, and the focus is cleared, decremented or kept |
| MinimisingManager.MinimisingWM.ToggleMinimised | cplwm/assignment/src/d_minimising_windows.rs:714-747 | `UnknownWindow` exactly for an unmanaged id; the store and ledger become `ToggledStore` and `ToggledLedger`; the focus is kept |
| MinimisingManager.MinimisingWM.FocusWindow | cplwm/assignment/src/d_minimising_windows.rs:408-431 | None clears the focus; an unmanaged id is `UnknownWindow`; otherwise w is focused and a minimised w is toggled back |
| MinimisingManager.MinimisingWM.CycleFocus | cplwm/assignment/src/d_minimising_windows.rs:437-483 | the focus moves as `CycledFocus` says, then the newly focused window's minimised state is toggled |
| MinimisingManager.MinimisingWM.ResizeScreen | cplwm/assignment/src/d_minimising_windows.rs:508-511 | the new screen, then a retiling |
| MinimisingManager.MinimisingWM.SwapWithMaster | cplwm/assignment/src/d_minimising_windows.rs:533-547 | `UnknownWindow` for an unmanaged id; `Ok` and no change without a Tile record; otherwise w trades places with the first Tile record, the store is retiled, w is focused, and a Tile w is the master |
| MinimisingManager.MinimisingWM.SwapWindows | cplwm/assignment/src/d_minimising_windows.rs:553-590 | with two or more records and a focused Tile, the focused record trades places with the nearest shown Tile in direction `dir`, the focus follows and the store is retiled; otherwise nothing changes |
| MinimisingManager.MinimisingWM.ToggleFloating | cplwm/assignment/src/d_minimising_windows.rs:613-632 | `UnknownWindow` for an unmanaged id; otherwise the record is flipped in place and the store retiled |
| MinimisingManager.MinimisingWM.SetWindowGeometry | cplwm/assignment/src/d_minimising_windows.rs:639-657 | `UnknownWindow` for an unmanaged id, `NoFloatingWindow` for a Tile; otherwise both geometries become `g`, with no retiling |
| MinimisingManager.StaleLedgerAfterRemove | cplwm/assignment/src/d_minimising_windows.rs:229 | defect: with Floats 1, 2, 3 and ledger [3, 2], removing 2 unminimises 3's record (ledger position 1 in the shortened store) while 3 stays in the ledger, so the ledger and the flags disagree although they agreed before |
| MinimisingManager.StaleLedgerBefore | cplwm/assignment/src/d_minimising_windows.rs:330-368 | for records 1 (shown) and 2, 3 (minimised) the ledger [3, 2] agrees, removing 2 is safe, and it leaves the ledger [3] |
| MinimisingManager.StaleLedgerAfter | cplwm/assignment/src/d_minimising_windows.rs:330-368 | when 2 and 3 are Floats, that removal leaves record 1 and record 3 with its minimised flag cleared |
| MinimisingManager.CycleTogglesFocused | cplwm/assignment/src/d_minimising_windows.rs:473-482 | defect: from an agreeing state, a shown window that receives the focus through `cycle_focus` ends up minimised and in the ledger, and a minimised one is shown again |
| DraftFullscreenManager.DraftDivisorCounts | cplwm/assignment/src/e_fullscreen_windows_w.rs:149-213 | the slice count is N - 1 shown Tiles without a fullscreen record and N - 2 with one, or 0 when that is not positive |
| DraftFullscreenManager.DraftRetiled | cplwm/assignment/src/e_fullscreen_windows_w.rs:149-213 | the draft's update changes only geometries and keeps the ids in order |
| DraftFullscreenManager.DraftRetiledAsMinimising | cplwm/assignment/src/e_fullscreen_windows_w.rs:149-213 | without a fullscreen record, the draft retiles exactly as the minimising manager |
| DraftFullscreenManager.DraftRetiledAt | cplwm/assignment/src/e_fullscreen_windows_w.rs:149-213 | a fullscreen record ends up with the screen's geometry; a Float that is not fullscreen keeps its own |
| DraftFullscreenManager.DraftRetileStore | cplwm/assignment/src/e_fullscreen_windows_w.rs:149-213 | the fullscreen loop, the counts and the stacking loop compute exactly `DraftRetiled` |
| DraftFullscreenManager.DraftLayoutShape | cplwm/assignment/src/e_fullscreen_windows_w.rs:394-438 | with a fullscreen record, the layout is that record alone and focused whatever the index says; without one it is the minimising manager's layout |
| DraftFullscreenManager.DraftToggledStore | cplwm/assignment/src/e_fullscreen_windows_w.rs:778-814 | toggling keeps the ids and modes and leaves no fullscreen record |
| DraftFullscreenManager.DraftToggleKeepsLedger | cplwm/assignment/src/e_fullscreen_windows_w.rs:778-814 | from an agreeing state, w's flag flips in step with the ledger, no other minimised flag moves, and the ledger still agrees |
| DraftFullscreenManager.DraftFocusedStore | cplwm/assignment/src/e_fullscreen_windows_w.rs:442-470 | focusing keeps the ids and modes and leaves no fullscreen record |
| DraftFullscreenManager.DraftFocusShows | cplwm/assignment/src/e_fullscreen_windows_w.rs:442-470 | from an agreeing state the focused window is shown afterwards and out of the ledger, which still agrees |
| DraftFullscreenManager.RevealedLedgerCleared | cplwm/assignment/src/e_fullscreen_windows_w.rs:849-865 | clearing the fullscreen flags does not change what focusing does to the ledger |
| DraftFullscreenManager.DraftRemovedStore | cplwm/assignment/src/e_fullscreen_windows_w.rs:345-383 | the remaining ids are the old ones without w, in order |
| DraftFullscreenManager.DraftRemoveAsMinimising | cplwm/assignment/src/e_fullscreen_windows_w.rs:223 | defect carried over: without a fullscreen record, removal is exactly the minimising manager's, including the purge at w's ledger position (see `MinimisingManager.StaleLedgerAfterRemove`) |
| DraftFullscreenManager.DraftFlippedStore | cplwm/assignment/src/e_fullscreen_windows_w.rs:673-694 | the in-place flip keeps the ids and leaves no fullscreen record |
| DraftFullscreenManager.DraftFlipTwice | cplwm/assignment/src/e_fullscreen_windows_w.rs:673-694 | toggling floating twice restores every record's mode, minimised flag and saved geometry |
| DraftFullscreenManager.DraftFullscreenToggled | cplwm/assignment/src/e_fullscreen_windows_w.rs:849-865 | toggling fullscreen keeps the ids |
| DraftFullscreenManager.DraftFullscreenTakesOver | cplwm/assignment/src/e_fullscreen_windows_w.rs:849-865 | when no window or another window is fullscreen, w becomes the only fullscreen record, at the screen's geometry, and the layout shows w alone; toggling the fullscreen w leaves none |
| DraftFullscreenManager.DraftFullscreenUnfocused | cplwm/assignment/src/e_fullscreen_windows_w.rs:849-865 | defect: when no window is fullscreen, toggling an unfocused w makes it the fullscreen window but leaves the focus elsewhere |
| DraftFullscreenManager.DraftFullscreenTwiceFloat | cplwm/assignment/src/e_fullscreen_windows_w.rs:849-865 | defect: a Float made fullscreen and back keeps the screen's geometry, because nothing restores its old place |
| DraftFullscreenManager.DraftSwappedStore | cplwm/assignment/src/e_fullscreen_windows_w.rs:583-646 | the swaps exchange the two ids and change nothing but geometries otherwise |
| DraftFullscreenManager.DraftSwapMakesMaster | cplwm/assignment/src/e_fullscreen_windows_w.rs:583-600 | after swapping a Tile with the first Tile record, retiling and focusing, the first Tile record is the one moved there |
| DraftFullscreenManager.DraftAddedStore | cplwm/assignment/src/e_fullscreen_windows_w.rs:319-340 | the new record is appended at the tail whatever its mode, unminimised and fullscreen as asked; the others lose only their fullscreen flag and geometry |
| DraftFullscreenManager.DraftAddKeepsOne | cplwm/assignment/src/e_fullscreen_windows_w.rs:319-340 | after adding, at most one record is fullscreen, and a window added fullscreen is the only one shown, at the screen's size |
| DraftFullscreenManager.DraftCycleTogglesFocused | cplwm/assignment/src/e_fullscreen_windows_w.rs:513-522 | defect: `cycle_focus` toggles the window it lands on and leaves no fullscreen record; from an agreeing state a shown window that receives the focus ends up minimised and in the ledger |
| DraftFullscreenManager.FullscreenDraftWM.constructor | cplwm/assignment/src/e_fullscreen_windows_w.rs:285-292 | empty store and ledger, nothing focused |
| DraftFullscreenManager.FullscreenDraftWM.GetWindows | cplwm/assignment/src/e_fullscreen_windows_w.rs:294-300 | the ids in store order |
| DraftFullscreenManager.FullscreenDraftWM.GetFloatingWindows | cplwm/assignment/src/e_fullscreen_windows_w.rs:654-662 | the Float records' ids in store order |
| DraftFullscreenManager.FullscreenDraftWM.GetMinimisedWindows | cplwm/assignment/src/e_fullscreen_windows_w.rs:733-735 | the ledger |
| DraftFullscreenManager.FullscreenDraftWM.GetFullscreenWindow | cplwm/assignment/src/e_fullscreen_windows_w.rs:825-831 | the id of the last fullscreen record |
| DraftFullscreenManager.FullscreenDraftWM.GetWindowLayout | cplwm/assignment/src/e_fullscreen_windows_w.rs:394-438 | exactly `DraftLayout` |
| DraftFullscreenManager.FullscreenDraftWM.CalculateTiledGeometries | cplwm/assignment/src/e_fullscreen_windows_w.rs:149-213 | the store becomes `DraftRetiled`; only geometries change |
| DraftFullscreenManager.FullscreenDraftWM.RemoveFullscreenWindow | cplwm/assignment/src/e_fullscreen_windows_w.rs:229-233 | every fullscreen flag is cleared |
| DraftFullscreenManager.FullscreenDraftWM.SetFullscreenWindow | cplwm/assignment/src/e_fullscreen_windows_w.rs:236-240 | the records with id w become fullscreen |
| DraftFullscreenManager.FullscreenDraftWM.AddWindow | cplwm/assignment/src/e_fullscreen_windows_w.rs:319-340 | `ManagedWindow` for a managed id; otherwise the store becomes `DraftAddedStore` and the new window is focused |
| DraftFullscreenManager.FullscreenDraftWM.RemoveMinimisedWindow | cplwm/assignment/src/e_fullscreen_windows_w.rs:218-226 | the ledger loses w and the store is purged at w's ledger position |
| DraftFullscreenManager.FullscreenDraftWM.RemoveWindow | cplwm/assignment/src/e_fullscreen_windows_w.rs:345-383 | `UnknownWindow` for an unmanaged id; otherwise the store and ledger become `DraftRemovedStore` and `RemovedLedger`, and the focus is cleared, decremented or kept |
| DraftFullscreenManager.FullscreenDraftWM.ToggleMinimised | cplwm/assignment/src/e_fullscreen_windows_w.rs:778-814 | `UnknownWindow` exactly for an unmanaged id; the store and ledger become `DraftToggledStore` and `ToggledLedger` |
| DraftFullscreenManager.FullscreenDraftWM.FocusWindow | cplwm/assignment/src/e_fullscreen_windows_w.rs:442-470 | None clears the focus; an unmanaged id is `UnknownWindow`; otherwise w is focused and the store becomes `DraftFocusedStore` |
| DraftFullscreenManager.FullscreenDraftWM.CycleFocus | cplwm/assignment/src/e_fullscreen_windows_w.rs:477-533 | the focus moves as `CycledFocus` says and the newly focused window's minimised state is toggled |
| DraftFullscreenManager.FullscreenDraftWM.ResizeScreen | cplwm/assignment/src/e_fullscreen_windows_w.rs:558-561 | the new screen, then a retiling |
| DraftFullscreenManager.FullscreenDraftWM.SwapWithMaster | cplwm/assignment/src/e_fullscreen_windows_w.rs:583-600 | fullscreen flags cleared whatever follows; `UnknownWindow` for an unmanaged id; no more without a Tile record; otherwise w trades places with the first Tile, the store is retiled, w is focused, and a Tile w is the master |
| DraftFullscreenManager.FullscreenDraftWM.SwapWindows | cplwm/assignment/src/e_fullscreen_windows_w.rs:606-646 | fullscreen flags cleared; with a focused Tile, it trades places with its nearest shown Tile neighbour, the focus follows and the store is retiled |
| DraftFullscreenManager.FullscreenDraftWM.ToggleFloating | cplwm/assignment/src/e_fullscreen_windows_w.rs:673-694 | fullscreen flags cleared, for an unmanaged id too, which is `UnknownWindow`; otherwise the store becomes `DraftFlippedStore` |
| DraftFullscreenManager.FullscreenDraftWM.SetWindowGeometry | cplwm/assignment/src/e_fullscreen_windows_w.rs:703-721 | `UnknownWindow` for an unmanaged id, `NoFloatingWindow` for a Tile; otherwise both geometries become `g` |
| DraftFullscreenManager.FullscreenDraftWM.ToggleFullscreen | cplwm/assignment/src/e_fullscreen_windows_w.rs:849-865 | always `Ok`; the store becomes `DraftFullscreenToggled`; only when another window was fullscreen is w focused |
| DraftFullscreenManager.SameFullscreenFlags | cplwm/assignment/src/e_fullscreen_windows_w.rs:149-213 | a rewrite that keeps every fullscreen flag keeps "at most one fullscreen record" |
| DraftFullscreenManager.FullscreenDraftWM.FocusAt | cplwm/assignment/src/e_fullscreen_windows_w.rs:453-466 | the managed case of `focus_window`: w is focused and the store becomes `DraftFocusedStore` |
| DraftFullscreenManager.FullscreenDraftWM.MoveFocus | cplwm/assignment/src/e_fullscreen_windows_w.rs:478-511 | the index move of `cycle_focus`, as `CycledFocus` says, with nothing else changed |
| DraftFullscreenManager.FullscreenDraftWM.SetMinimised | cplwm/assignment/src/e_fullscreen_windows_w.rs:778-814 | the minimised flag of the record at i is set and the store retiled |
| DraftFullscreenManager.FullscreenDraftWM.SwapAndRetile | cplwm/assignment/src/e_fullscreen_windows_w.rs:606-646 | `windows.swap(i, j)` then retiling: the store becomes `DraftSwappedStore` |
| DraftFullscreenManager.FullscreenDraftWM.SwapIntoMaster | cplwm/assignment/src/e_fullscreen_windows_w.rs:583-600 | the swap, retiling and focusing of `swap_with_master`: w focused at the master's position, and a Tile w the first Tile record |
| DraftFullscreenManager.FullscreenDraftWM.FocusFullscreen | cplwm/assignment/src/e_fullscreen_windows_w.rs:849-865 | the branch for another fullscreen window: w focused and made fullscreen |
| FullscreenManager.FlagsKeepShape | cplwm/assignment/src/e_fullscreen_windows.rs:323-334 | a rewrite of flags only keeps the ids, the partition and the tiling order |
| FullscreenManager.PartitionedRemoveAt | cplwm/assignment/src/e_fullscreen_windows.rs:491-532 | removing a record keeps Tiles before Floats |
| FullscreenManager.PartitionedSwapTiles | cplwm/assignment/src/e_fullscreen_windows.rs:804-899 | swapping two Tiles keeps Tiles before Floats |
| FullscreenManager.DivisorCounts | cplwm/assignment/src/e_fullscreen_windows.rs:188-262 | with n shown Tiles and f = 1 when some record is fullscreen, the divisor is n - 1 - f when that is positive, else 0 |
| FullscreenManager.Retiled | cplwm/assignment/src/e_fullscreen_windows.rs:188-262 | the update changes only geometries and keeps the ids in order |
| FullscreenManager.RetiledMasterStack | cplwm/assignment/src/e_fullscreen_windows.rs:188-262 | without a fullscreen record and with n >= 2 shown Tiles, the shown Tile of rank r gets the master/stack rectangle of r among n; Floats and minimised records keep their geometry |
| FullscreenManager.RetiledSingleTile | cplwm/assignment/src/e_fullscreen_windows.rs:255-260 | without a fullscreen record and with one shown Tile, that record gets the screen and nothing else changes |
| FullscreenManager.RetiledAt | cplwm/assignment/src/e_fullscreen_windows.rs:188-262 | a fullscreen record gets the screen; a Float that is not fullscreen keeps its geometry |
| FullscreenManager.RetileStore | cplwm/assignment/src/e_fullscreen_windows.rs:188-262 | the fullscreen loop, the three counting loops and the stacking loop compute exactly `Retiled` |
| FullscreenManager.LayoutFullscreen | cplwm/assignment/src/e_fullscreen_windows.rs:541-624 | with at most one fullscreen record, the layout is that record alone, focused, at its geometry |
| FullscreenManager.LayoutShown | cplwm/assignment/src/e_fullscreen_windows.rs:541-624 | without a fullscreen record the layout shows exactly the shown records and reports the focused one; store order is kept, except that the focused record moves to the end exactly when it is the store's first Float and shown |
| FullscreenManager.PartitionedInsert | cplwm/assignment/src/e_fullscreen_windows.rs:177-183 | inserting where `add_window` inserts (a Float last, a Tile at the first Float position) keeps Tiles before Floats |
| FullscreenManager.AddedRecord | cplwm/assignment/src/e_fullscreen_windows.rs:439-480 | `add_window` stores the client's record unminimised at the place `AddedAt` gives and focuses it; a fullscreen record is then the focused one, and the ledger still agrees |
| FullscreenManager.RemovedInvariants | cplwm/assignment/src/e_fullscreen_windows.rs:491-532 | `remove_window` keeps "a fullscreen record is the focused one", and keeps the ledger agreeing when the removed record was shown |
| FullscreenManager.RemovedStaleLedger | cplwm/assignment/src/e_fullscreen_windows.rs:500-502 | defect: removing a minimised record leaves its id in the ledger (the call clears a fullscreen flag instead), so `is_minimised` holds for a window no longer managed and the ledger no longer agrees |
| FullscreenManager.FocusedOn | cplwm/assignment/src/e_fullscreen_windows.rs:633-669 | focusing a fullscreen w changes nothing; any other w becomes the focus, every fullscreen flag is cleared, w is shown and out of the ledger, and the other records keep all but their fullscreen flag |
| FullscreenManager.FocusedShows | cplwm/assignment/src/e_fullscreen_windows.rs:633-669 | `focus_window` never minimises a record |
| FullscreenManager.FocusNoneKeepsFullscreen | cplwm/assignment/src/e_fullscreen_windows.rs:633-669 | `focus_window(None)` clears the focus but not the fullscreen flag, so the layout still reports the fullscreen window as focused while nothing is |
| FullscreenManager.CycledInvariants | cplwm/assignment/src/e_fullscreen_windows.rs:678-735 | `cycle_focus` shows the newly focused record and takes it out of the ledger, keeps the ledger agreeing, and leaves no fullscreen record (so none minimised) |
| FullscreenManager.SwapWithMasterPromotes | cplwm/assignment/src/e_fullscreen_windows.rs:804-831 | `swap_with_master` of a shown Tile makes it the master and focuses it, and leaves no fullscreen record |
| FullscreenManager.MinimisedBeforeMaster | cplwm/assignment/src/e_fullscreen_windows.rs:804-831 | a Tile before the master must be minimised; swapping it shows and focuses it, but the old master stays the master |
| FullscreenManager.TileNeighbour | cplwm/assignment/src/e_fullscreen_windows.rs:116-158 | the neighbour is None exactly when no other record is Tile, and otherwise an other Tile record |
| FullscreenManager.SwapWindowsFollows | cplwm/assignment/src/e_fullscreen_windows.rs:846-899 | `swap_windows` never changes the focused window; when it swaps, the focus moves to the neighbour's position and the two ids trade places; with one record, no focus, a focused Float or no Tile neighbour, the ids and the focus are unchanged |
| FullscreenManager.SwapWithMinimisedNeighbour | cplwm/assignment/src/e_fullscreen_windows.rs:127 | defect: the scan tests the mode only, so a minimised Tile right after the focused Tile is swapped with it by `swap_windows(Next)` and lands at the focused position, still minimised |
| FullscreenManager.FloatToggledRecord | cplwm/assignment/src/e_fullscreen_windows.rs:934-1024 | `toggle_floating` flips w's mode, keeps its saved geometry, shows it and clears its fullscreen flag; Tile to Float puts it last at its saved geometry |
| FullscreenManager.FloatToggledFocus | cplwm/assignment/src/e_fullscreen_windows.rs:934-1024 | for a record that is not fullscreen, the focused window and the fullscreen window are kept; for the fullscreen one, no record is fullscreen afterwards and w is focused |
| FullscreenManager.FloatToggledTwice | cplwm/assignment/src/e_fullscreen_windows.rs:934-1024 | toggling floating twice restores the mode and the saved geometry, and from Float also the geometry |
| FullscreenManager.GeometrySetFloat | cplwm/assignment/src/e_fullscreen_windows.rs:1037-1062 | for a Float, both geometries become `g`, it is shown and out of the ledger, and no other record changes; for a Tile nothing changes |
| FullscreenManager.MinimisedToggledRecords | cplwm/assignment/src/e_fullscreen_windows.rs:1088-1110 | w's fullscreen flag is cleared and its minimised flag flips; minimising appends to the ledger and drops a focus on w; showing unlists w; other records keep all but their geometry |
| FullscreenManager.MinimisedToggledAgrees | cplwm/assignment/src/e_fullscreen_windows.rs:1070-1110 | `toggle_minimised` keeps the ledger agreeing, so `is_minimised` holds exactly for the listed ids |
| FullscreenManager.MinimisedToggledFocus | cplwm/assignment/src/e_fullscreen_windows.rs:1088-1110 | `toggle_minimised` keeps "a fullscreen record is the focused one" |
| FullscreenManager.MinimisedToggledTwice | cplwm/assignment/src/e_fullscreen_windows.rs:1088-1110 | minimising a shown window and showing it again gives the ledger back and shows the record again |
| FullscreenManager.FullscreenToggledOn | cplwm/assignment/src/e_fullscreen_windows.rs:1127-1152 | for a w that is not fullscreen: w is shown, out of the ledger, focused, the only fullscreen record, at the screen's geometry; the fullscreen window is w and the layout is w alone |
| FullscreenManager.FullscreenToggledOff | cplwm/assignment/src/e_fullscreen_windows.rs:1127-1152 | for the fullscreen w: no record is fullscreen afterwards, the focus stays, and w is shown and out of the ledger |
| FullscreenManager.ResizedFullscreen | cplwm/assignment/src/e_fullscreen_windows.rs:766-769 | `resize_screen` gives the fullscreen record the new screen and keeps focus, ledger and flags |
| FullscreenManager.ResizedAgrees | cplwm/assignment/src/e_fullscreen_windows.rs:766-769 | in every well-formed state, `resize_screen` keeps the ledger agreeing (both ways), keeps fullscreen records shown, minimised records listed and a fullscreen record focused |
| FullscreenManager.FocusedAgrees | cplwm/assignment/src/e_fullscreen_windows.rs:633-669 | `focus_window` keeps the ledger agreeing and lists no new id |
| FullscreenManager.FocusedKeepsShown | cplwm/assignment/src/e_fullscreen_windows.rs:633-669 | in every well-formed state, `focus_window` leaves no fullscreen record minimised and keeps every minimised record listed |
| FullscreenManager.MasterSwappedAgrees | cplwm/assignment/src/e_fullscreen_windows.rs:818-823 | the trade with the master keeps the ledger agreeing |
| FullscreenManager.SwappedWithMasterAgrees | cplwm/assignment/src/e_fullscreen_windows.rs:804-831 | `swap_with_master` keeps the ledger agreeing, and leaves no fullscreen record minimised or unfocused |
| FullscreenManager.SwappedWindowsAgrees | cplwm/assignment/src/e_fullscreen_windows.rs:846-899 | `swap_windows` keeps the ledger agreeing, and leaves no fullscreen record minimised or unfocused |
| FullscreenManager.FullscreenFocusedByIds | cplwm/assignment/src/e_fullscreen_windows.rs:974-985 | "a fullscreen record is the focused one" holds exactly when the focused window is the fullscreen window |
| FullscreenManager.FullscreenUnlisted | cplwm/assignment/src/e_fullscreen_windows.rs:974-985 | the remembered fullscreen id is not in an agreeing ledger when no fullscreen record is minimised |
| FullscreenManager.RestoredAgrees | cplwm/assignment/src/e_fullscreen_windows.rs:1012-1019 | the end of `toggle_floating` keeps the ledger agreeing and lists no new id; the record made fullscreen again is shown when its id is not listed |
| FullscreenManager.FloatToggledInvariants | cplwm/assignment/src/e_fullscreen_windows.rs:934-1024 | `toggle_floating` keeps "a fullscreen record is the focused one"; while no fullscreen record is minimised, it keeps the ledger agreeing and keeps that so |
| FullscreenManager.FloatToggledLedger | cplwm/assignment/src/e_fullscreen_windows.rs:934-1024 | both branches of `toggle_floating` keep the ledger agreeing and fullscreen records shown |
| FullscreenManager.AddedKeepsShown | cplwm/assignment/src/e_fullscreen_windows.rs:439-480 | after `add_window` no fullscreen record is minimised, in every state; minimised records stay listed and every other shown id stays shown |
| FullscreenManager.RemovedKeepsShown | cplwm/assignment/src/e_fullscreen_windows.rs:491-532 | in every well-formed state, stale ledger or not, `remove_window` keeps fullscreen records shown, minimised records listed and shown ids shown |
| FullscreenManager.GeometrySetKeepsShown | cplwm/assignment/src/e_fullscreen_windows.rs:1037-1062 | in every well-formed state, `set_window_geometry` keeps fullscreen records shown and minimised records listed |
| FullscreenManager.MinimisedToggledKeepsShown | cplwm/assignment/src/e_fullscreen_windows.rs:1070-1110 | in every well-formed state, `toggle_minimised` keeps fullscreen records shown (it clears w's fullscreen flag before minimising it) and minimised records listed (it lists w when it minimises it) |
| FullscreenManager.FullscreenToggledKeepsShown | cplwm/assignment/src/e_fullscreen_windows.rs:1127-1152 | in every well-formed state `toggle_fullscreen` keeps minimised records listed; with every minimised record listed, w is shown before it is made fullscreen, so fullscreen records stay shown |
| Records.UnlistedKeepsOthers | cplwm/assignment/src/d_minimising_windows.rs:224-232 | unlisting w keeps every other listed id, whether or not the ledger repeats ids |
| FullscreenManager.AgreesListed | cplwm/assignment/src/e_fullscreen_windows.rs:290-321 | an agreeing ledger lists every minimised record's id |
| FullscreenManager.RemoveMinimisedListed | cplwm/assignment/src/e_fullscreen_windows.rs:290-305 | `remove_minimised_window` keeps every minimised record listed: the id it unlists belongs to the record it shows |
| FullscreenManager.RemoveMinimisedShown | cplwm/assignment/src/e_fullscreen_windows.rs:290-305 | `remove_minimised_window` keeps fullscreen records shown and shown ids shown |
| FullscreenManager.SetMinimisedListed | cplwm/assignment/src/e_fullscreen_windows.rs:310-321 | `set_minimised_window` keeps every minimised record listed: the record it minimises joins the ledger |
| FullscreenManager.UpdateKeepsShown | cplwm/assignment/src/e_fullscreen_windows.rs:188-262 | `update_geometries` keeps fullscreen records shown, minimised records listed and shown ids shown |
| FullscreenManager.FullscreenIdShown | cplwm/assignment/src/e_fullscreen_windows.rs:1115-1121 | with at most one fullscreen record, and that one shown, no record with the fullscreen window's id is minimised |
| FullscreenManager.InsertedKeepsShown | cplwm/assignment/src/e_fullscreen_windows.rs:453-473 | storing the new, shown record keeps minimised records listed and every other id shown |
| FullscreenManager.DroppedKeepsShown | cplwm/assignment/src/e_fullscreen_windows.rs:491-532 | `windows.remove(i)` keeps fullscreen records shown, minimised records listed and shown ids shown |
| FullscreenManager.CycledKeepsShown | cplwm/assignment/src/e_fullscreen_windows.rs:678-735 | in every well-formed state, `cycle_focus` leaves no fullscreen record minimised and keeps minimised records listed |
| FullscreenManager.TradedListed | cplwm/assignment/src/e_fullscreen_windows.rs:865-877 | `windows.swap(i, j)` keeps minimised records listed |
| FullscreenManager.MasterSwappedListed | cplwm/assignment/src/e_fullscreen_windows.rs:818-823 | the trade inside `swap_with_master` keeps minimised records listed |
| FullscreenManager.SwappedWithMasterKeepsShown | cplwm/assignment/src/e_fullscreen_windows.rs:804-831 | in every well-formed state, `swap_with_master` leaves no fullscreen record minimised and keeps minimised records listed |
| FullscreenManager.NeighbourSwappedListed | cplwm/assignment/src/e_fullscreen_windows.rs:865-877 | the swap inside `swap_windows` keeps minimised records listed |
| FullscreenManager.SwappedWindowsKeepsShown | cplwm/assignment/src/e_fullscreen_windows.rs:846-899 | in every well-formed state, `swap_windows` leaves no fullscreen record minimised and keeps minimised records listed |
| FullscreenManager.RestoredKeepsShown | cplwm/assignment/src/e_fullscreen_windows.rs:1012-1019 | the end of `toggle_floating` keeps minimised records listed, and the record made fullscreen again is shown when its id was |
| FullscreenManager.RememberedShown | cplwm/assignment/src/e_fullscreen_windows.rs:934-1024 | the fullscreen window `toggle_floating` remembers is not the toggled one, and is shown |
| FullscreenManager.ReAddedKeepsShown | cplwm/assignment/src/e_fullscreen_windows.rs:934-1024 | removing w and adding it back keeps minimised records listed and every other shown id shown |
| FullscreenManager.ShownToggledKeepsShown | cplwm/assignment/src/e_fullscreen_windows.rs:934-1024 | `toggle_floating` of a record that is not fullscreen keeps fullscreen records shown and minimised records listed |
| FullscreenManager.FloatToggledKeepsShown | cplwm/assignment/src/e_fullscreen_windows.rs:934-1024 | in every well-formed state, stale ledger or not, `toggle_floating` keeps fullscreen records shown and minimised records listed |
| FullscreenManager.FlippedKeepsShown | cplwm/assignment/src/e_fullscreen_windows.rs:1091-1105 | the flag steps of `toggle_minimised` keep fullscreen records shown and minimised records listed |
| FullscreenManager.SwitchedKeepsShown | cplwm/assignment/src/e_fullscreen_windows.rs:1135-1147 | the flag changes of `toggle_fullscreen` keep minimised records listed, and keep fullscreen records shown when w is shown |
| FullscreenManager.RetiledNoFullscreen | cplwm/assignment/src/e_fullscreen_windows.rs:188-262 | without a fullscreen record the update is the stacking of the shown Tiles under the first shown Tile, with the counted divisor |
| FullscreenManager.RetiledIsStacking | cplwm/assignment/src/e_fullscreen_windows.rs:200-247 | without a fullscreen record and with n >= 2 shown Tiles, the divisor is n - 1 and the master exists |
| FullscreenManager.UpdateKeepsFloats | cplwm/assignment/src/e_fullscreen_windows.rs:219-223 | the update leaves every Float that is not fullscreen exactly as it was |
| FullscreenManager.StackTiled | cplwm/assignment/src/e_fullscreen_windows.rs:206-247 | the `iter_mut` stacking loop with its running `y_point` computes exactly the stacking of the shown, not fullscreen Tiles |
| FullscreenManager.ScreenMaster | cplwm/assignment/src/e_fullscreen_windows.rs:248-260 | the fallback gives the first shown Tile the screen and changes nothing else |
| FullscreenManager.NonTiledCount | cplwm/assignment/src/e_fullscreen_windows.rs:200-207 | the `non_tiled_windows` sum of the three counting loops, the master and the fullscreen flag gives the divisor: the store size minus it when positive, else 0 |
| FullscreenManager.MoveToEnd | cplwm/assignment/src/e_fullscreen_windows.rs:541-624 | moving the focused entry to the end keeps the multiset of entries and puts that entry last; an absent entry changes nothing |
| FullscreenManager.EntryShown | cplwm/assignment/src/e_fullscreen_windows.rs:541-624 | with distinct ids, a record's entry is among the shown entries exactly when the record is not minimised |
| FullscreenManager.RemoveMinimised | cplwm/assignment/src/e_fullscreen_windows.rs:290-305 | only the ledger and minimised flags change: w leaves the ledger and its record is shown; nothing is minimised; no change when w is not listed; well formedness is kept |
| FullscreenManager.UnlistAgrees | cplwm/assignment/src/e_fullscreen_windows.rs:290-305 | `remove_minimised_window` keeps the ledger agreeing, and w's record is shown afterwards |
| FullscreenManager.SetMinimised | cplwm/assignment/src/e_fullscreen_windows.rs:310-321 | for a managed w, its record is minimised and w appended to the ledger, no other record changing; for an unmanaged w nothing changes; well formedness is kept |
| FullscreenManager.ListAgrees | cplwm/assignment/src/e_fullscreen_windows.rs:310-321 | `set_minimised_window` of a managed id outside the ledger keeps the ledger agreeing |
| FullscreenManager.Reflagged | cplwm/assignment/src/e_fullscreen_windows.rs:323-334 | only fullscreen flags change, and exactly those of the records with id w; clearing keeps well formedness, and so does setting in a store without a fullscreen record |
| FullscreenManager.Cleared | cplwm/assignment/src/e_fullscreen_windows.rs:651-654 | the clearing loop leaves no fullscreen record and changes nothing else but those flags |
| FullscreenManager.Update | cplwm/assignment/src/e_fullscreen_windows.rs:188-262 | `update_geometries` changes only geometries, keeps the ids, the focus, the ledger and whether a record is fullscreen, and keeps well formedness |
| FullscreenManager.AddedAt | cplwm/assignment/src/e_fullscreen_windows.rs:177-183 | a Float goes to the end; a Tile goes after every Tile and before the first Float |
| FullscreenManager.InsertKeepsOne | cplwm/assignment/src/e_fullscreen_windows.rs:439-480 | inserting a record into a store without a fullscreen record leaves at most one, and none when the new one is not fullscreen |
| FullscreenManager.InsertedFacts | cplwm/assignment/src/e_fullscreen_windows.rs:439-480 | the inserted record is the client's, focused; a fullscreen one is the focused one; the ledger still agrees |
| FullscreenManager.Added | cplwm/assignment/src/e_fullscreen_windows.rs:439-480 | `add_window` stays well formed, focuses the new record at `AddedAt` and inserts its id there; the ledger and screen are kept; a window added not fullscreen leaves no fullscreen record |
| FullscreenManager.Removed | cplwm/assignment/src/e_fullscreen_windows.rs:491-532 | `remove_window` stays well formed, takes w's id out of the ids, and moves the focus as `FocusAfterRemove` says; the ledger is kept unchanged |
| FullscreenManager.Dropped | cplwm/assignment/src/e_fullscreen_windows.rs:491-532 | `windows.remove(i)` keeps well formedness and the ledger, and the focus follows its window |
| FullscreenManager.DroppedFocus | cplwm/assignment/src/e_fullscreen_windows.rs:491-532 | dropping a record keeps "a fullscreen record is the focused one" |
| FullscreenManager.DroppedAgrees | cplwm/assignment/src/e_fullscreen_windows.rs:491-532 | dropping a shown record keeps the ledger agreeing |
| FullscreenManager.Focused | cplwm/assignment/src/e_fullscreen_windows.rs:633-669 | `focus_window` stays well formed and changes only flags; None clears the focus and changes nothing else, in every state; a managed w that is not fullscreen is focused and no fullscreen record is left |
| FullscreenManager.FocusedShownAt | cplwm/assignment/src/e_fullscreen_windows.rs:633-669 | without a fullscreen record, focusing a shown record only moves the focus to it |
| FullscreenManager.Cycled | cplwm/assignment/src/e_fullscreen_windows.rs:678-735 | `cycle_focus` stays well formed, moves the focus as `CycledFocus` says, keeps the ids and leaves no fullscreen record |
| FullscreenManager.Resized | cplwm/assignment/src/e_fullscreen_windows.rs:766-769 | `resize_screen` stores the new screen, keeps the ids, focus and ledger, and stays well formed (agreement: `ResizedAgrees`) |
| FullscreenManager.SwappedWithMaster | cplwm/assignment/src/e_fullscreen_windows.rs:804-831 | `swap_with_master` stays well formed, leaves no fullscreen record and permutes the ids (agreement: `SwappedWithMasterAgrees`) |
| FullscreenManager.MasterSwapped | cplwm/assignment/src/e_fullscreen_windows.rs:818-823 | the trade with the master stays well formed, leaves no fullscreen record and permutes the ids |
| FullscreenManager.MasterSwappedShape | cplwm/assignment/src/e_fullscreen_windows.rs:818-823 | after the trade, w sits at the master's old position and is focused; the store is the plain swap up to geometries |
| FullscreenManager.MasterSwappedMaster | cplwm/assignment/src/e_fullscreen_windows.rs:815-823 | w ends up focused; from at or after the master it becomes the master; from before the master it was minimised and the old master stays the master |
| FullscreenManager.TradedFirstTiled | cplwm/assignment/src/e_fullscreen_windows.rs:815-823 | after the trade, the first shown Tile is the record now at the master's old position when w came at or after it, and the old master otherwise |
| FullscreenManager.SwappedWindows | cplwm/assignment/src/e_fullscreen_windows.rs:846-899 | `swap_windows` stays well formed, leaves no fullscreen record and permutes the ids (agreement: `SwappedWindowsAgrees`; no-op cases: `SwapWindowsFollows`) |
| FullscreenManager.TradedPlaces | cplwm/assignment/src/e_fullscreen_windows.rs:865-877 | `windows.swap(i, j)` of two Tiles in a store without fullscreen records keeps well formedness, the focus index and the ledger, and swaps the ids |
| FullscreenManager.ToggledInfo | cplwm/assignment/src/e_fullscreen_windows.rs:947-1005 | the re-added info has the record's id, its saved geometry, the other mode, and no fullscreen flag |
| FullscreenManager.FloatToggled | cplwm/assignment/src/e_fullscreen_windows.rs:934-1024 | `toggle_floating` stays well formed and permutes the ids (agreement and focus: `FloatToggledInvariants`) |
| FullscreenManager.FullToggledRecord | cplwm/assignment/src/e_fullscreen_windows.rs:947-968 | for the fullscreen record, removing and re-adding it flips it (its mode, its saved geometry as geometry), puts a former Tile last, leaves no fullscreen record, and focuses it |
| FullscreenManager.ShownToggledRecord | cplwm/assignment/src/e_fullscreen_windows.rs:969-1021 | for a record that is not fullscreen, the whole sequence flips it and puts a former Tile last |
| FullscreenManager.ShownToggledFocus | cplwm/assignment/src/e_fullscreen_windows.rs:969-1021 | for a record that is not fullscreen, the whole sequence keeps the focused window and the fullscreen window |
| FullscreenManager.Restored | cplwm/assignment/src/e_fullscreen_windows.rs:1012-1019 | the end of `toggle_floating` stays well formed and keeps the ids |
| FullscreenManager.RestoredRecords | cplwm/assignment/src/e_fullscreen_windows.rs:1012-1019 | the end of `toggle_floating` changes no id, mode or saved geometry, minimises nothing, makes exactly the remembered id fullscreen, and leaves every other Float's geometry alone |
| FullscreenManager.RestoredFocus | cplwm/assignment/src/e_fullscreen_windows.rs:1012 | the remembered focused window is focused again, or nothing when none was |
| FullscreenManager.RestoredFullscreen | cplwm/assignment/src/e_fullscreen_windows.rs:1013-1018 | the remembered fullscreen window is the fullscreen window again |
| FullscreenManager.ReAddedIds | cplwm/assignment/src/e_fullscreen_windows.rs:986-1005 | removing w and adding it again removes its id first and then gives back the same ids up to order |
| FullscreenManager.ReAddedRecord | cplwm/assignment/src/e_fullscreen_windows.rs:986-1005 | re-adding w with a non-fullscreen info keeps the store size, leaves no fullscreen record, focuses w, stores the info's record, and puts a Float last |
| FullscreenManager.ReAddedRestored | cplwm/assignment/src/e_fullscreen_windows.rs:986-1019 | re-adding with `ToggledInfo` and restoring flips the record and puts a former Tile last |
| FullscreenManager.ReAddedFocus | cplwm/assignment/src/e_fullscreen_windows.rs:986-1019 | re-adding and restoring a managed focus and fullscreen id reports exactly those as focused and fullscreen |
| FullscreenManager.OtherFullscreen | cplwm/assignment/src/e_fullscreen_windows.rs:976 | the fullscreen id remembered for a record that is not fullscreen is a managed id other than w |
| FullscreenManager.UnminimisedOnly | cplwm/assignment/src/e_fullscreen_windows.rs:970-972 | with an agreeing ledger, showing the toggled record again is the only change to the store |
| FullscreenManager.GeometrySet | cplwm/assignment/src/e_fullscreen_windows.rs:1037-1062 | `set_window_geometry` stays well formed and keeps the focus and the ids |
| FullscreenManager.MinimisedToggled | cplwm/assignment/src/e_fullscreen_windows.rs:1088-1110 | `toggle_minimised` stays well formed and keeps the ids |
| FullscreenManager.MinimisedFlipped | cplwm/assignment/src/e_fullscreen_windows.rs:1091-1105 | with an agreeing ledger only w's record changes: its fullscreen flag is cleared and its minimised flag flips; the ledger lists or unlists w; a focus on a newly minimised w is dropped; the ledger still agrees |
| FullscreenManager.MinimisedToggledStep | cplwm/assignment/src/e_fullscreen_windows.rs:1091-1105 | the flag steps `remove_fullscreen_window`, then `remove_minimised_window` or the focus step and `set_minimised_window`, amount to that single flip |
| FullscreenManager.FullscreenToggled | cplwm/assignment/src/e_fullscreen_windows.rs:1127-1152 | `toggle_fullscreen` stays well formed and keeps the ids |
| FullscreenManager.FullscreenSwitched | cplwm/assignment/src/e_fullscreen_windows.rs:1135-1147 | the flag changes of `toggle_fullscreen` stay well formed and keep the ids |
| FullscreenManager.SwitchedOn | cplwm/assignment/src/e_fullscreen_windows.rs:1135-1147 | for a w that is not fullscreen, both branches amount to focusing w and then setting its fullscreen flag |
| FullscreenManager.MasterWindow | cplwm/assignment/src/e_fullscreen_windows.rs:778-790 | the master is present exactly when some shown Tile exists, and it is the first shown Tile |
| FullscreenManager.FullscreenWindow | cplwm/assignment/src/e_fullscreen_windows.rs:1115-1121 | present exactly when some record is fullscreen; with at most one, it is that record's id |
| FullscreenManager.FullscreenWM.constructor | cplwm/assignment/src/e_fullscreen_windows.rs:386-393 | the empty state on the screen, well formed, the ledger agreeing, no fullscreen record minimised or unfocused, and every minimised record listed |
| FullscreenManager.FullscreenWM.GetWindows | cplwm/assignment/src/e_fullscreen_windows.rs:396-402 | the ids in store order |
| FullscreenManager.FullscreenWM.GetFocusedWindow | cplwm/assignment/src/e_fullscreen_windows.rs:407-416 | present exactly when the focus is, and then the id at the focus index |
| FullscreenManager.FullscreenWM.GetFloatingWindows | cplwm/assignment/src/e_fullscreen_windows.rs:910-921 | the ids of the shown Floats in store order |
| FullscreenManager.FullscreenWM.GetMinimisedWindows | cplwm/assignment/src/e_fullscreen_windows.rs:1070-1072 | the ledger |
| FullscreenManager.FullscreenWM.GetFullscreenWindow | cplwm/assignment/src/e_fullscreen_windows.rs:1115-1121 | exactly `FullscreenWindow` |
| FullscreenManager.FullscreenWM.GetWindowLayout | cplwm/assignment/src/e_fullscreen_windows.rs:541-624 | exactly `WindowLayout` |
| FullscreenManager.FullscreenWM.UpdateGeometries | cplwm/assignment/src/e_fullscreen_windows.rs:188-262 | the state becomes `Update` of the old one |
| FullscreenManager.FullscreenWM.RemoveMinimisedWindow | cplwm/assignment/src/e_fullscreen_windows.rs:290-305 | the state becomes `RemoveMinimised`: w unlisted and its own record shown |
| FullscreenManager.FullscreenWM.SetMinimisedWindow | cplwm/assignment/src/e_fullscreen_windows.rs:310-321 | the state becomes `SetMinimised`: w's record minimised and w appended to the ledger |
| FullscreenManager.FullscreenWM.SetFullscreenWindow | cplwm/assignment/src/e_fullscreen_windows.rs:323-327 | the records with id w become fullscreen |
| FullscreenManager.FullscreenWM.RemoveFullscreenWindow | cplwm/assignment/src/e_fullscreen_windows.rs:330-334 | the records with id w stop being fullscreen |
| FullscreenManager.FullscreenWM.AddWindow | cplwm/assignment/src/e_fullscreen_windows.rs:439-480 | `ManagedWindow` for a managed id, with no change; otherwise the state becomes `Added`, and it stays well formed |
| FullscreenManager.FullscreenWM.RemoveWindow | cplwm/assignment/src/e_fullscreen_windows.rs:491-532 | `UnknownWindow` for an unmanaged id, with no change; otherwise the state becomes `Removed`, and it stays well formed |
| FullscreenManager.FullscreenWM.FocusWindow | cplwm/assignment/src/e_fullscreen_windows.rs:633-669 | the state becomes `Focused`; `UnknownWindow` exactly for an unmanaged id |
| FullscreenManager.FullscreenWM.CycleFocus | cplwm/assignment/src/e_fullscreen_windows.rs:678-735 | the state becomes `Cycled` |
| FullscreenManager.FullscreenWM.ResizeScreen | cplwm/assignment/src/e_fullscreen_windows.rs:766-769 | the state becomes `Resized` |
| FullscreenManager.FullscreenWM.SwapWithMaster | cplwm/assignment/src/e_fullscreen_windows.rs:804-831 | the state becomes `SwappedWithMaster`; `UnknownWindow` for an unmanaged id, `NoTiledWindow` for a Float, and `Ok` for a Tile |
| FullscreenManager.FullscreenWM.SwapWindows | cplwm/assignment/src/e_fullscreen_windows.rs:846-899 | the state becomes `SwappedWindows` |
| FullscreenManager.FullscreenWM.ToggleFloating | cplwm/assignment/src/e_fullscreen_windows.rs:934-1024 | the state becomes `FloatToggled`; `UnknownWindow` exactly for an unmanaged id |
| FullscreenManager.FullscreenWM.SetWindowGeometry | cplwm/assignment/src/e_fullscreen_windows.rs:1037-1062 | the state becomes `GeometrySet`; `UnknownWindow` for an unmanaged id, `NoFloatingWindow` for a Tile |
| FullscreenManager.FullscreenWM.ToggleMinimised | cplwm/assignment/src/e_fullscreen_windows.rs:1088-1110 | the state becomes `MinimisedToggled`; `UnknownWindow` exactly for an unmanaged id |
| FullscreenManager.FullscreenWM.ToggleFullscreen | cplwm/assignment/src/e_fullscreen_windows.rs:1127-1152 | the state becomes `FullscreenToggled`; `UnknownWindow` exactly for an unmanaged id |
| FullscreenManager.FullscreenWM.ClearFullscreenFlags | cplwm/assignment/src/e_fullscreen_windows.rs:651-654 | the state becomes `Cleared`; the result says whether a record was fullscreen |
| FullscreenManager.FullscreenWM.InsertRecord | cplwm/assignment/src/e_fullscreen_windows.rs:453-473 | the state becomes `Inserted`: the record at `AddedAt`, focused |
| FullscreenManager.FullscreenWM.SwapIntoMaster | cplwm/assignment/src/e_fullscreen_windows.rs:818-823 | the state becomes `MasterSwapped`, and the result is `Ok` |
| FullscreenManager.FullscreenWM.RestoreFocusAndFullscreen | cplwm/assignment/src/e_fullscreen_windows.rs:1012-1019 | the state becomes `Restored` |
| FullscreenManager.FullscreenWM.FlipMinimised | cplwm/assignment/src/e_fullscreen_windows.rs:1091-1105 | the state becomes `MinimisedFlipped` |
| FullscreenManager.FullscreenWM.SwitchFullscreen | cplwm/assignment/src/e_fullscreen_windows.rs:1135-1147 | the state becomes `FullscreenSwitched` |

## Left out

- `get_window_info` and `get_screen`, in every manager except `a_fullscreen_wm.rs`: plain reads of a record or of the screen, with nothing to prove beyond the lookup (`Lookup`).
- `cycle_focus`, `resize_screen`, `get_window_info` and `get_screen` of `a_fullscreen_wm.rs`, and `swap_windows` of `b_tiling_wm.rs`: their bodies are `unimplemented!()`.
- `get_floating_windows`, `toggle_floating` and `set_window_geometry` of `c_floating_windows.rs`: they belong to the commented-out float-support draft.
- The `resize_screen` of the managers before the minimising one: it only stores the new screen.
- The commented-out test modules of the drafts; the scenarios kept as lemmas follow the cases they describe.
- `fmt::Display`, `error::Error` and the serialisation derives: message formatting and library serialisation.
- The `cplwm_api` crate is not part of this model. `Screen::to_geometry` is taken to be the whole-screen rectangle, `WindowLayout::new` the empty layout, and `is_managed` membership in `get_windows()`.
- `b_tiling_wm_w.rs` does not compile as written (an invalid line and references to an undefined type in `new` and `get_windows`). `new` is modelled as the empty state and `get_windows` as the ids of the store.
- `is_floating` in the layout and query filters of `c_floating_windows.rs` (lines 176, 189 and 411) is not a field of `WindowWithInfo`, whose mode is `float_or_tile`; it is read as `float_or_tile == Float` (`WithMode`).
- Machine arithmetic: widths and heights are `nat` and positions are `int`, with truncating division. The `u32` and `i32` casts of the layout code cannot overflow in the model.
- Rust panics become preconditions and are not modelled as aborts. These are: the index underflow of `remove_window` in `b_tiling_wm.rs` and in `c_floating_windows.rs`; `unwrap` on a stale focus index; a minimised window's ledger position past the end of the shortened store in the minimising and draft managers (`RemovalIsSafe`); the `unwrap` of focusing an unmanaged window in the draft's `toggle_fullscreen`.
- FloatingManager.FloatingWM.RemoveWindow: requires a positive focus index when another window is focused, because the source's `index - 1` would underflow at 0.
- TilingManager.TillingWM.RemoveWindow: requires a positive index when a window other than the first is removed, for the same underflow.
- MinimisingManager.MinimisingWM.RemoveWindow: requires `RemovalIsSafe`, because the source panics when w's ledger position is not a position of the shortened store.
- DraftFullscreenManager.FullscreenDraftWM.ToggleFullscreen: requires w to be managed when another window is fullscreen, because the source's `unwrap` panics otherwise.
- FullscreenManager.AddedRecord, FullscreenManager.RemovedInvariants, FullscreenManager.FocusedOn, FullscreenManager.CycledInvariants, FullscreenManager.MinimisedToggledRecords and FullscreenManager.GeometrySetFloat: they assume that the ledger agrees with the flags, and `remove_window` of a minimised window breaks that (`RemovedStaleLedger`), so after such a removal their conclusions about the ledger are not claimed.
- FullscreenManager.FloatToggledInvariants: claims the ledger's agreement only while no fullscreen record is minimised (`FullscreenShown`), because `toggle_floating` of a minimised fullscreen record removes it while minimised and leaves its id in the ledger. `FullscreenShown` holds in every reachable state, stale ledger ids or not: the constructor establishes it together with `MinimisedListed` (every minimised record's id is in the ledger, which an agreeing ledger gives by `AgreesListed` and which `remove_window` keeps), and from every well-formed state each operation keeps both (`AddedKeepsShown`, `RemovedKeepsShown`, `FocusedKeepsShown`, `CycledKeepsShown`, `ResizedAgrees`, `SwappedWithMasterKeepsShown`, `SwappedWindowsKeepsShown`, `FloatToggledKeepsShown`, `GeometrySetKeepsShown`, `MinimisedToggledKeepsShown`, `FullscreenToggledKeepsShown`). `toggle_fullscreen` needs `MinimisedListed` to keep `FullscreenShown`, since it shows w only through the ledger.
