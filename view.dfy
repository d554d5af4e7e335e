/*
 * The input side of the compositor (cursor, seats, the views they focus and
 * grab) lives in the default module: the cursor and its seat refer to each
 * other, so they share one module spread over view.dfy, cursor.dfy and
 * seat.dfy.
 */
import opened Wlr
import opened CInt

// wlr_edges bits, as used for resize grabs
const EdgeNone: bv32 := 0
const EdgeTop: bv32 := 1
const EdgeBottom: bv32 := 2
const EdgeLeft: bv32 := 4
const EdgeRight: bv32 := 8

/**
 * The requests the input code makes of a view.  How a view carries them out
 * (configure events, waiting for the client's commit) is view code that is
 * not part of this model, so a view records them in order.
 */
datatype ViewRequest =
  | MoveTo(x: int, y: int)
  | MoveResizeTo(x: int, y: int, width: int, height: int)
  | RotateAround
  | Unmaximize
  | Activate(active: bool)
  | FocusInWorkspace

/** A toplevel window as the input code sees it. */
class View {
  /** Position in layout coordinates. */
  var x: int
  var y: int
  /** The size of the view's geometry (`get_box`). */
  var width: int
  var height: int
  /**
   * The size of the surface's current state (`wlr_surface->current`), which
   * exceeds the geometry when the client draws shadows or borders around it.
   */
  var surfaceWidth: int
  var surfaceHeight: int
  var rotation: real
  var maximized: bool
  /** The geometry from before the view was maximized. */
  var saved: Box
  /** The view's `wlr_surface`, if it has one. */
  const surface: Option<Surface>
  /** An override-redirect Xwayland window (a popup menu, typically). */
  const overrideRedirect: bool
  /** `deco.part_at`: the decoration parts under a point in view coordinates. */
  const decoPartAt: (int, int) -> bv32
  var requests: seq<ViewRequest>

  constructor (x: int, y: int, width: int, height: int, surfaceWidth: int, surfaceHeight: int,
               surface: Option<Surface>, overrideRedirect: bool, decoPartAt: (int, int) -> bv32)
    ensures this.x == x && this.y == y && this.width == width && this.height == height
    ensures this.surfaceWidth == surfaceWidth && this.surfaceHeight == surfaceHeight
    ensures this.surface == surface && this.overrideRedirect == overrideRedirect && this.decoPartAt == decoPartAt
    ensures !maximized && requests == [] && rotation == 0.0
  {
    this.x := x;
    this.y := y;
    this.width := width;
    this.height := height;
    this.surfaceWidth := surfaceWidth;
    this.surfaceHeight := surfaceHeight;
    this.rotation := 0.0;
    this.maximized := false;
    this.saved := Box(x, y, width, height);
    this.surface := surface;
    this.overrideRedirect := overrideRedirect;
    this.decoPartAt := decoPartAt;
    this.requests := [];
  }
}

/** The client of a view's surface, if it has a surface. */
function ClientOf(view: View): Option<ClientId> {
  if view.surface.Some? then Some(view.surface.value.client) else None
}

/** A `wlr_layer_surface_v1` as the seat sees it. */
datatype LayerRef = LayerRef(surface: Surface, layer: nat, keyboardInteractive: bool)

/**
 * The answer of the desktop's hit test (`Desktop::surface_at`) at a layout
 * point: the surface there and the point in its coordinates, the view the
 * point belongs to (which may be hit on its decoration, with no surface), and
 * the layer surface when the surface is one.
 */
datatype Hit = Hit(surface: Option<Surface>, view: View?, sx: int, sy: int, layer: Option<LayerRef>)

/** `Desktop::surface_at`, which is not part of this model, as a function of the point. */
type HitTest = (int, int) -> Hit
