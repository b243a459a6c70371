/**
 * Types shared by every window manager of the series: window ids, rectangles,
 * the screen, the record a client hands to a manager, the layout a manager
 * reports, and the errors its operations return.
 */
module Basics {

  datatype Option<T> = None | Some(value: T)

  /** A window is an opaque id (an unsigned 64-bit number in the API crate). */
  type Window = nat

  /** A rectangle on the screen: x and y are signed, width and height unsigned. */
  datatype Geometry = Geometry(x: int, y: int, width: nat, height: nat)

  datatype Screen = Screen(width: nat, height: nat)

  /** The rectangle covering the whole screen (the API's `Screen::to_geometry`). */
  function ScreenGeometry(screen: Screen): Geometry
  {
    Geometry(0, 0, screen.width, screen.height)
  }

  /** Whether a window takes part in the tiling or floats on top of it. */
  datatype Mode = Tile | Float

  /** The argument of `cycle_focus` and `swap_windows`. */
  datatype Direction = Prev | Next

  /**
   * What a client says about a window (the API's `WindowWithInfo`): its id,
   * its requested geometry, its mode and whether it asks to be fullscreen.
   */
  datatype Info = Info(window: Window, geometry: Geometry, mode: Mode, fullscreen: bool)

  /** What a manager reports: the focused window and the visible windows bottom to top. */
  datatype Layout = Layout(focusedWindow: Option<Window>, windows: seq<(Window, Geometry)>)

  /** The ids a layout shows, bottom to top. */
  function Shown(entries: seq<(Window, Geometry)>): seq<Window>
  {
    seq(|entries|, k requires 0 <= k < |entries| => entries[k].0)
  }

  /** The API's `WindowLayout::new()`: nothing focused, nothing shown. */
  const EmptyLayout := Layout(None, [])

  /** The error enums of the managers, one constructor per variant used anywhere. */
  datatype WmError =
    | UnknownWindow(window: Window)
    | ManagedWindow(window: Window)
    | NoFloatingWindow(window: Window)
    | NoTiledWindow(window: Window)

  /** The `Result<(), Error>` every mutating operation returns. */
  datatype Outcome = Ok | Err(error: WmError)

  /** The height of one of `d` stacked slices of a height `h` (truncating). */
  function SliceHeight(h: nat, d: nat): (r: nat)
    requires d > 0
    ensures r * d <= h
  {
    h / d
  }

  /**
   * The master/stack rectangle of the window at position `k` among `n >= 2`
   * tiled windows: position 0 (the master) gets the left half of the screen,
   * and position k >= 1 gets the (k-1)-th slice, counted from the top, of the
   * right half cut into n - 1 slices of height h / (n - 1) (truncating).
   */
  function MasterStack(screen: Screen, n: nat, k: nat): Geometry
    requires 2 <= n && k < n
  {
    if k == 0 then Geometry(0, 0, screen.width / 2, screen.height)
    else
      var hh := SliceHeight(screen.height, n - 1);
      Geometry(screen.width / 2, (k - 1) * hh, screen.width / 2, hh)
  }

  /** The rectangle `g` lies within the screen. */
  predicate Inside(g: Geometry, screen: Screen)
  {
    0 <= g.x && 0 <= g.y && g.x + g.width <= screen.width && g.y + g.height <= screen.height
  }

  /** The interiors of two rectangles do not meet. */
  predicate Disjoint(g: Geometry, h: Geometry)
  {
    g.x + g.width <= h.x || h.x + h.width <= g.x || g.y + g.height <= h.y || h.y + h.height <= g.y
  }

  /** A remainder below the modulus is the number itself. */
  lemma ModBelow(a: nat, len: nat)
    requires a < len
    ensures a % len == a
  {
  }

  /** A number between one and two moduli wraps around once. */
  lemma ModWrap(a: nat, len: nat)
    requires len <= a < 2 * len
    ensures a % len == a - len
  {
    ModBelow(a - len, len);
    assert a == (a - len) + len;
  }

  lemma MulMono(a: nat, b: nat, c: nat)
    requires a <= b
    ensures a * c <= b * c
  {
  }

  /** One more slice moves the running offset down by one slice height. */
  lemma MulSucc(a: nat, c: nat)
    ensures a * (c + 1) == a * c + a
  {
  }

  lemma SliceBelowScreen(h: nat, n: nat, k: nat)
    requires 2 <= n && 1 <= k < n
    ensures (k - 1) * SliceHeight(h, n - 1) + SliceHeight(h, n - 1) <= h
  {
    var hh := SliceHeight(h, n - 1);
    assert hh * (n - 1) <= h;
    assert (k - 1) * hh + hh == k * hh;
    MulMono(k, n - 1, hh);
  }

  lemma SliceOrder(hh: nat, j: nat, k: nat)
    requires 1 <= j < k
    ensures (j - 1) * hh + hh <= (k - 1) * hh
  {
    calc {
      (j - 1) * hh + hh;
      == j * hh;
      <= { assert j <= k - 1; } (k - 1) * hh;
    }
  }

  /**
   * The master/stack rectangles tile the screen without overlap: each lies
   * within the screen, and two different positions never overlap.
   */
  lemma {:induction false} MasterStackTiles(screen: Screen, n: nat, j: nat, k: nat)
    requires 2 <= n && j < n && k < n
    ensures Inside(MasterStack(screen, n, k), screen)
    ensures j != k ==> Disjoint(MasterStack(screen, n, j), MasterStack(screen, n, k))
  {
    if k >= 1 {
      SliceBelowScreen(screen.height, n, k);
    }
    if j >= 1 && k >= 1 && j < k {
      SliceOrder(SliceHeight(screen.height, n - 1), j, k);
    } else if j >= 1 && k >= 1 && k < j {
      SliceOrder(SliceHeight(screen.height, n - 1), k, j);
    }
  }

  /**
   * The circular index move of `cycle_focus` and `swap_windows`: Prev from 0
   * goes to len - 1, Next from len - 1 goes to 0, and otherwise the index
   * moves by one. A stale index (one at or past `len`) is moved the same way.
   */
  function Step(index: nat, len: nat, dir: Direction): (r: nat)
    requires len > 0
    ensures index < len ==> r < len
    ensures index >= len ==> r == (if dir == Prev then index - 1 else index + 1)
  {
    match dir
    case Prev => if index != 0 then index - 1 else len - 1
    case Next => if index != len - 1 then index + 1 else 0
  }

  /** On a valid index the move is modular: Next adds one and Prev subtracts one, modulo `len`. */
  lemma StepIsModular(index: nat, len: nat)
    requires index < len
    ensures Step(index, len, Next) == (index + 1) % len
    ensures Step(index, len, Prev) == (index + len - 1) % len
  {
    if index + 1 < len {
      ModBelow(index + 1, len);
    } else {
      ModWrap(index + 1, len);
    }
    if index != 0 {
      ModWrap(index + len - 1, len);
    } else {
      ModBelow(index + len - 1, len);
    }
  }

  /** Moving forward and then back, or back and then forward, returns to the start. */
  lemma StepRoundTrip(index: nat, len: nat)
    requires index < len
    ensures Step(Step(index, len, Next), len, Prev) == index
    ensures Step(Step(index, len, Prev), len, Next) == index
  {
  }

  /**
   * The optional focus after `cycle_focus` over `len` windows: with two or
   * more, no focus becomes 0 and a focus moves circularly; a single window
   * becomes focused; with none nothing changes.
   */
  function CycledFocus(focus: Option<nat>, len: nat, dir: Direction): (r: Option<nat>)
    requires focus.Some? ==> focus.value < len
    ensures len == 0 ==> r == focus
    ensures len > 0 ==> r.Some? && r.value < len
    ensures len > 1 && focus.None? ==> r == Some(0)
    ensures len > 1 && focus.Some? ==> r == Some(Step(focus.value, len, dir))
    ensures len == 1 ==> r == Some(0)
  {
    if len > 1 then
      match focus
      case None => Some(0)
      case Some(index) => Some(Step(index, len, dir))
    else if len == 1 then Some(0)
    else focus
  }
}
