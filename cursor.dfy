/*
 * The seat's cursor: the pointer grab state machine (passthrough, move,
 * resize, rotate), pointer constraints, tablet tools that fall back to
 * pointer emulation, and touch points that emulate buttons and arm edge
 * gestures.
 */

datatype Mode = Passthrough | Move | Resize | Rotate

datatype Button = LeftButton | RightButton | MiddleButton | OtherButton(code: nat)

datatype ButtonState = Released | Pressed

/** A pixman box: the half-open rectangle [x1, x2) x [y1, y2). */
datatype RegionBox = RegionBox(x1: int, y1: int, x2: int, y2: int)

/** A pixman region, as the list of its rectangles. */
datatype Region = Region(boxes: seq<RegionBox>) {
  predicate Contains(x: int, y: int) {
    exists i :: 0 <= i < |boxes| && boxes[i].x1 <= x < boxes[i].x2 && boxes[i].y1 <= y < boxes[i].y2
  }
}

datatype ConstraintKind = Locked | Confined

/** A `wlr_pointer_constraint_v1`: the surface it constrains and the region it allows. */
datatype Constraint = Constraint(id: nat, surface: Surface, kind: ConstraintKind, region: Region)

/** The screen edge a touch gesture starts from. */
datatype Side = TopSide | BottomSide | LeftSide | RightSide | NoSide

/** A touch gesture that may be under way: the touch point that began it and its edge. */
datatype Gesture = Gesture(touchId: int, side: Side)

/** What the cursor tells the outside world, in order. */
datatype CursorEvent =
  | ImageDefault                      // the default cursor image is set
  | ImageCleared                      // the cursor image is removed
  | PassthroughAt(time: int)          // pointer focus follows the surface under the cursor
  | Deactivated(constraint: Constraint)
  | Activated(constraint: Constraint)
  | WarpTo(x: int, y: int)
  | ToolProximityOut
  | ToolProximityIn(surface: Surface)
  | ToolMotion(sx: int, sy: int)
  | RunCommand(command: string)

/** The compositor command an accomplished edge gesture runs. */
function GestureCommand(side: Side): (command: Option<string>)
  ensures command.None? <==> side == NoSide
{
  match side
  case TopSide => Some("exec killall cloth-bar || cloth-bar")
  case BottomSide => Some("exec killall cloth-kbd || cloth-kbd")
  case LeftSide => Some("switch_workspace prev")
  case RightSide => Some("switch_workspace next")
  case NoSide => None
}

/** The commands run when a gesture ends; an abandoned or absent gesture runs none. */
function GestureEvents(gesture: Option<Gesture>, completed: bool): seq<CursorEvent> {
  if gesture.Some? && completed && GestureCommand(gesture.value.side).Some? then
    [RunCommand(GestureCommand(gesture.value.side).value)]
  else
    []
}

/**
 * The constraint a trace of cursor events leaves active: the one activated
 * last, unless it was deactivated since.
 */
function LastActivation(trace: seq<CursorEvent>): Option<Constraint> {
  if |trace| == 0 then None
  else
    match trace[|trace| - 1]
    case Activated(c) => Some(c)
    case Deactivated(_) => None
    case _ => LastActivation(trace[..|trace| - 1])
}

/** Switching from one constraint to another: the old one is deactivated before the new one is activated. */
function ConstraintSwitch(from: Option<Constraint>, to: Option<Constraint>): seq<CursorEvent> {
  (if from.Some? then [Deactivated(from.value)] else []) + (if to.Some? then [Activated(to.value)] else [])
}

/** A trace that switches constraints ends with the new one active, whatever follows that is not a constraint event. */
lemma {:induction false} SwitchLeavesActive(trace: seq<CursorEvent>, from: Option<Constraint>, to: Option<Constraint>, rest: seq<CursorEvent>)
  requires forall i :: 0 <= i < |rest| ==> !rest[i].Activated? && !rest[i].Deactivated?
  requires from.Some? || to.Some?
  ensures LastActivation(trace + ConstraintSwitch(from, to) + rest) == to
  decreases |rest|
{
  var t := trace + ConstraintSwitch(from, to) + rest;
  if |rest| == 0 {
    assert t == trace + ConstraintSwitch(from, to);
  } else {
    var shorter := rest[..|rest| - 1];
    assert t[..|t| - 1] == trace + ConstraintSwitch(from, to) + shorter;
    SwitchLeavesActive(trace, from, to, shorter);
  }
}

/**
 * One axis of a resize grab.  `low` is the top (or left) edge being dragged,
 * `high` the bottom (or right) one; `start` and `size` are the view's
 * geometry when the grab began, `current` its position now and `delta` how
 * far the cursor has moved since.  Dragging the low edge keeps the far edge
 * in place until the view would shrink below one pixel; then the view is one
 * pixel wide, just beyond where its far edge was.  Dragging the high edge
 * keeps the view where it is.
 */
function ResizeAxis(low: bool, high: bool, start: int, size: int, current: int, delta: int): (r: (int, int))
  ensures r.1 >= 1
  ensures low && size - delta >= 1 ==> r.0 == start + delta && r.0 + r.1 == start + size
  ensures low && size - delta < 1 ==> r.0 == start + size && r.1 == 1
  ensures !low && high ==> r.0 == current && r.1 == (if size + delta < 1 then 1 else size + delta)
  ensures !low && !high ==> r.0 == current && r.1 == (if size < 1 then 1 else size)
{
  if low then
    if size - delta < 1 then (start + size, 1) else (start + delta, size - delta)
  else if high then
    (current, if size + delta < 1 then 1 else size + delta)
  else
    (current, if size < 1 then 1 else size)
}

/** The geometry a resize grab from `grab` asks of the view once the cursor has moved by (dx, dy). */
function ResizeTarget(edges: bv32, grab: Box, current: (int, int), dx: int, dy: int): (r: ViewRequest)
  ensures r.MoveResizeTo? && r.width >= 1 && r.height >= 1
{
  var h := ResizeAxis(edges & EdgeLeft != 0, edges & EdgeRight != 0, grab.x, grab.width, current.0, dx);
  var v := ResizeAxis(edges & EdgeTop != 0, edges & EdgeBottom != 0, grab.y, grab.height, current.1, dy);
  MoveResizeTo(h.0, v.0, h.1, v.1)
}

/**
 * The edges a meta + right-button resize takes hold of: the horizontal and
 * the vertical edge nearest to the grab point, the halves being split with
 * the source's integer halving of the surface size.
 */
function GrabEdges(sx: int, sy: int, width: int, height: int): (edges: bv32)
  ensures edges == EdgeLeft | EdgeTop || edges == EdgeLeft | EdgeBottom
       || edges == EdgeRight | EdgeTop || edges == EdgeRight | EdgeBottom
  ensures edges & EdgeLeft != 0 <==> sx < TruncDiv(width, 2)
  ensures edges & EdgeTop != 0 <==> sy < TruncDiv(height, 2)
{
  (if sx < TruncDiv(width, 2) then EdgeLeft else EdgeRight) | (if sy < TruncDiv(height, 2) then EdgeTop else EdgeBottom)
}

/** A tablet tool; when the surface under it does not speak the tablet protocol it drives the cursor instead. */
class TabletTool {
  /** A puck-like tool, which moves the cursor relatively. */
  const isMouse: bool
  var inFallbackMode: bool

  constructor (isMouse: bool)
    ensures this.isMouse == isMouse && !inFallbackMode
  {
    this.isMouse := isMouse;
    inFallbackMode := false;
  }
}

class Cursor {
  const seat: Seat
  var mode: Mode
  /** The cursor position in layout coordinates. */
  var x: int
  var y: int
  /** Where the cursor was, and the grabbed view's geometry, when the current grab began. */
  var offsX: int
  var offsY: int
  var viewX: int
  var viewY: int
  var viewWidth: int
  var viewHeight: int
  var viewRotation: real
  var resizeEdges: bv32
  var activeConstraint: Option<Constraint>
  /** The region a confined pointer may move in; empty while it is locked. */
  var confine: Region
  var visible: bool
  /** The seat's view under the cursor, hit on its decoration or its surface. */
  var pointerView: SeatView?
  var currentGesture: Option<Gesture>
  var events: seq<CursorEvent>

  constructor (seat: Seat)
    ensures this.seat == seat && mode == Passthrough && visible
    ensures activeConstraint.None? && currentGesture.None? && pointerView == null && events == []
  {
    this.seat := seat;
    mode := Passthrough;
    x, y := 0, 0;
    offsX, offsY := 0, 0;
    viewX, viewY, viewWidth, viewHeight := 0, 0, 0, 0;
    viewRotation := 0.0;
    resizeEdges := EdgeNone;
    activeConstraint := None;
    confine := Region([]);
    visible := true;
    pointerView := null;
    currentGesture := None;
    events := [];
  }

  /** Shows or hides the cursor image, doing nothing when it is already so. */
  method SetVisible(vis: bool)
    modifies this`visible, this`events
    ensures visible == vis
    ensures vis == old(visible) ==> events == old(events)
    ensures vis != old(visible) ==> events == old(events) + [if vis then ImageDefault else ImageCleared]
  {
    if vis == visible {
      return;
    }
    if vis {
      events := events + [ImageDefault];
    } else {
      events := events + [ImageCleared];
    }
    visible := vis;
  }

  /** Re-evaluates pointer focus without an input event. */
  method UpdateFocus()
    modifies this`events
    ensures events == old(events) + [PassthroughAt(-1)]
  {
    events := events + [PassthroughAt(-1)];
  }

  /**
   * Follows a cursor motion: in passthrough the pointer focus follows the
   * cursor; during a grab the seat's focused view is moved, resized or
   * rotated relative to where it was when the grab began.
   */
  method UpdatePosition(time: int)
    modifies this`events, seat.focusedView
    ensures events == old(events) + (if mode == Passthrough then [PassthroughAt(time)] else [])
    ensures var v := seat.focusedView;
      v != null ==>
        && unchanged(v`x, v`y, v`width, v`height, v`rotation, v`maximized, v`saved)
        && (mode == Passthrough ==> v.requests == old(v.requests))
        && (mode == Move ==> v.requests == old(v.requests) + [MoveTo(viewX + (x - offsX), viewY + (y - offsY))])
        && (mode == Resize ==>
              v.requests == old(v.requests)
                + [ResizeTarget(resizeEdges, Box(viewX, viewY, viewWidth, viewHeight), (v.x, v.y), x - offsX, y - offsY)])
        && (mode == Rotate ==> v.requests == old(v.requests) + [RotateAround])
  {
    var view := seat.focusedView;
    match mode
    case Passthrough =>
      events := events + [PassthroughAt(time)];
    case Move =>
      if view != null {
        var dx := x - offsX;
        var dy := y - offsY;
        view.requests := view.requests + [MoveTo(viewX + dx, viewY + dy)];
      }
    case Resize =>
      if view != null {
        var dx := x - offsX;
        var dy := y - offsY;
        var nx := view.x;
        var ny := view.y;
        var width := viewWidth;
        var height := viewHeight;
        if resizeEdges & EdgeTop != 0 {
          ny := viewY + dy;
          height := height - dy;
          if height < 1 {
            ny := ny + height;
          }
        } else if resizeEdges & EdgeBottom != 0 {
          height := height + dy;
        }
        if resizeEdges & EdgeLeft != 0 {
          nx := viewX + dx;
          width := width - dx;
          if width < 1 {
            nx := nx + width;
          }
        } else if resizeEdges & EdgeRight != 0 {
          width := width + dx;
        }
        view.requests := view.requests + [MoveResizeTo(nx, ny, if width < 1 then 1 else width, if height < 1 then 1 else height)];
      }
    case Rotate =>
      if view != null {
        view.requests := view.requests + [RotateAround];
      }
  }

  /**
   * A button press or release at a layout point, from a pointer or emulated
   * by touch.  With meta held, pressing on a view grabs it: the left button
   * moves it, the right one resizes it from the nearest corner, the middle
   * one rotates it, and the view becomes the seat's focused view first.
   * Otherwise a release ends any grab, and a press focuses the view or the
   * keyboard-interactive layer surface under the point.
   */
  method PressButton(isTouch: bool, time: int, button: Button, state: ButtonState, lx: int, ly: int, hitTest: HitTest)
    requires seat.cursor == this && seat.Valid()
    modifies this`mode, this`offsX, this`offsY, this`viewX, this`viewY, this`viewWidth, this`viewHeight
    modifies this`viewRotation, this`resizeEdges, this`events, pointerView
    modifies seat`events, seat`pointerClient, seat`focusedLayer, seat`hasFocus, seat`views, seat`focusedView
    modifies hitTest(lx, ly).view, seat.focusedView
    ensures seat.Valid() && old(events) <= events
    ensures var hit := hitTest(lx, ly);
      var view := hit.view;
      var focuses := view != null && !seat.Refuses(view)
        && state == Pressed && (MetaPressed(seat.keyboards) || hit.surface == view.surface);
      && (focuses ==> seat.focusedView == view)
      && (!focuses ==> seat.focusedView == old(seat.focusedView))
    ensures !isTouch ==> |seat.events| > |old(seat.events)| && seat.events[|old(seat.events)|] == PointerButton(time, button, state)
    ensures isTouch ==> old(seat.events) <= seat.events
    ensures var hit := hitTest(lx, ly);
      var grab := state == Pressed && hit.view != null && MetaPressed(seat.keyboards);
      && (grab && button == LeftButton ==> mode == Move && offsX == x && offsY == y)
      && (grab && button == RightButton ==>
            mode == Resize && offsX == x && offsY == y
            && resizeEdges == GrabEdges(hit.sx, hit.sy, hit.view.surfaceWidth, hit.view.surfaceHeight))
      && (grab && button == MiddleButton ==> mode == Rotate && offsX == x && offsY == y)
      && (grab && button.OtherButton? ==> mode == old(mode))
      && (!grab && state == Released ==> mode == Passthrough)
      && (!grab && state == Pressed ==> mode == old(mode))
    ensures var hit := hitTest(lx, ly);
      var layer := hit.layer;
      var client := if layer.Some? then layer.value.surface.client else 0;
      var allowed := old(seat.AllowInput(client));
      state == Pressed && !(hit.view != null && MetaPressed(seat.keyboards))
        && hit.surface.Some? && layer.Some? && layer.value.keyboardInteractive && allowed ==>
        !seat.hasFocus && (layer.value.layer >= LayerShell.LayerTop ==> seat.focusedLayer == layer)
  {
    var hit := hitTest(lx, ly);
    if !isTouch {
      seat.events := seat.events + [PointerButton(time, button, state)];
    }
    var meta := seat.HasMetaPressed();
    if state == Pressed && hit.view != null && meta {
      BeginMetaGrab(hit.view, button, hit.sx, hit.sy);
    } else {
      PlainButton(isTouch, time, button, state, hit);
    }
  }

  /**
   * The compositor grab that meta and `button` start on `view`, grabbed at
   * (sx, sy) of its surface.  The view is first focused in its workspace,
   * which gives it the seat's focus, so that the grab acts on it.
   */
  method BeginMetaGrab(view: View, button: Button, sx: int, sy: int)
    requires seat.cursor == this && seat.Valid()
    modifies this`mode, this`offsX, this`offsY, this`viewX, this`viewY, this`viewWidth, this`viewHeight
    modifies this`viewRotation, this`resizeEdges, this`events, view, seat`events, seat`pointerClient
    modifies seat`hasFocus, seat`focusedView, seat`views, seat.focusedView
    ensures seat.Valid() && old(seat.events) <= seat.events && old(events) <= events
    ensures !seat.Refuses(view) ==> seat.focusedView == view
    ensures seat.Refuses(view) ==> seat.focusedView == old(seat.focusedView)
    ensures button == LeftButton ==> mode == Move && offsX == x && offsY == y
    ensures button == RightButton ==>
      mode == Resize && offsX == x && offsY == y && resizeEdges == GrabEdges(sx, sy, view.surfaceWidth, view.surfaceHeight)
    ensures button == MiddleButton ==> mode == Rotate && offsX == x && offsY == y
    ensures button.OtherButton? ==> mode == old(mode)
  {
    view.requests := view.requests + [FocusInWorkspace];
    seat.SetFocus(view);
    match button
    case LeftButton =>
      seat.BeginMove(view);
    case RightButton =>
      seat.BeginResize(view, GrabEdges(sx, sy, view.surfaceWidth, view.surfaceHeight));
    case MiddleButton =>
      seat.BeginRotate(view);
    case OtherButton(_) =>
  }

  /**
   * A button without a meta grab: the decoration under the pointer hears of
   * it; a release ends any grab; a press focuses what is under the point.
   */
  method PlainButton(isTouch: bool, time: int, button: Button, state: ButtonState, hit: Hit)
    requires seat.cursor == this && seat.Valid()
    modifies this`mode, this`events, pointerView
    modifies seat`events, seat`focusedLayer, seat`hasFocus, seat`views, seat`focusedView
    modifies hit.view, seat.focusedView
    ensures seat.Valid() && old(events) <= events && old(seat.events) <= seat.events
    ensures var view := hit.view;
      var focuses := state == Pressed && view != null && hit.surface == view.surface && !seat.Refuses(view);
      && (focuses ==> seat.focusedView == view)
      && (!focuses ==> seat.focusedView == old(seat.focusedView))
    ensures state == Released ==> mode == Passthrough
    ensures state == Pressed ==> mode == old(mode)
    ensures var layer := hit.layer;
      state == Pressed && hit.surface.Some? && layer.Some? && layer.value.keyboardInteractive
        && old(seat.AllowInput(layer.value.surface.client)) ==>
        !seat.hasFocus && (layer.value.layer >= LayerShell.LayerTop ==> seat.focusedLayer == layer)
  {
    var view := hit.view;
    if view != null && hit.surface.None? && pointerView != null {
      pointerView.DecoButton(hit.sx, hit.sy, button, state);
    }
    if state == Released && mode != Passthrough {
      mode := Passthrough;
    }
    match state
    case Released =>
      if !isTouch {
        UpdatePosition(time);
      }
    case Pressed =>
      FocusPressed(hit);
  }

  /**
   * A plain press focuses what is under the point: the view whose surface
   * was hit, in its workspace and on the seat, then a keyboard-interactive
   * layer surface.
   */
  method FocusPressed(hit: Hit)
    requires seat.cursor == this && seat.Valid()
    modifies this`mode, this`events
    modifies seat`events, seat`focusedLayer, seat`hasFocus, seat`views, seat`focusedView
    modifies hit.view, seat.focusedView
    ensures seat.Valid() && old(events) <= events && old(seat.events) <= seat.events && mode == old(mode)
    ensures var view := hit.view;
      var focuses := view != null && hit.surface == view.surface && !seat.Refuses(view);
      && (focuses ==> seat.focusedView == view)
      && (!focuses ==> seat.focusedView == old(seat.focusedView))
    ensures var layer := hit.layer;
      hit.surface.Some? && layer.Some? && layer.value.keyboardInteractive && seat.AllowInput(layer.value.surface.client) ==>
        !seat.hasFocus && (layer.value.layer >= LayerShell.LayerTop ==> seat.focusedLayer == layer)
  {
    var view := hit.view;
    if view != null && hit.surface == view.surface {
      view.requests := view.requests + [FocusInWorkspace];
      seat.SetFocus(view);
    }
    if hit.surface.Some? && hit.layer.Some? && hit.layer.value.keyboardInteractive {
      seat.SetFocusLayer(hit.layer);
    }
  }

  /**
   * Makes `constraint` the active pointer constraint.  The previous one is
   * deactivated before the new one is activated; a pointer outside the new
   * region is warped to the middle of its first rectangle; a confining
   * constraint's region becomes the area the cursor may move in, a locking
   * one leaves none.
   */
  method Constrain(constraint: Option<Constraint>, sx: int, sy: int)
    modifies this`activeConstraint, this`events, this`confine, this`x, this`y
    ensures activeConstraint == constraint
    ensures old(activeConstraint) == constraint ==>
      events == old(events) && confine == old(confine) && x == old(x) && y == old(y)
    ensures old(activeConstraint) != constraint ==>
      old(events) + ConstraintSwitch(old(activeConstraint), constraint) <= events
    ensures old(activeConstraint) != constraint && constraint.None? ==>
      events == old(events) + ConstraintSwitch(old(activeConstraint), constraint) && confine == old(confine)
    ensures old(activeConstraint) != constraint && constraint.Some? ==>
      confine == (if constraint.value.kind == Confined then constraint.value.region else Region([]))
    ensures var warp := old(activeConstraint) != constraint && constraint.Some?
        && !constraint.value.region.Contains(sx, sy) && |constraint.value.region.boxes| > 0 && pointerView != null;
      && (warp ==>
            var b := constraint.value.region.boxes[0];
            x == pointerView.view.x + (b.x1 + b.x2) / 2 && y == pointerView.view.y + (b.y1 + b.y2) / 2
            && events == old(events) + ConstraintSwitch(old(activeConstraint), constraint) + [WarpTo(x, y)])
      && (!warp ==> x == old(x) && y == old(y))
      && (!warp && old(activeConstraint) != constraint ==> events == old(events) + ConstraintSwitch(old(activeConstraint), constraint))
    ensures LastActivation(old(events)) == old(activeConstraint) ==> LastActivation(events) == activeConstraint
  {
    if activeConstraint == constraint {
      return;
    }
    ghost var before := events;
    ghost var previous := activeConstraint;
    if activeConstraint.Some? {
      events := events + [Deactivated(activeConstraint.value)];
    }
    activeConstraint := constraint;
    if constraint.None? {
      assert events == before + ConstraintSwitch(previous, constraint);
      if LastActivation(before) == previous {
        SwitchLeavesActive(before, previous, constraint, []);
        assert before + ConstraintSwitch(previous, constraint) + [] == events;
      }
      return;
    }
    events := events + [Activated(constraint.value)];
    assert events == before + ConstraintSwitch(previous, constraint);
    confine := Region([]);
    var region := constraint.value.region;
    var rest: seq<CursorEvent> := [];
    if !region.Contains(sx, sy) {
      if |region.boxes| > 0 && pointerView != null {
        var view := pointerView.view;
        var b := region.boxes[0];
        x := view.x + (b.x1 + b.x2) / 2;
        y := view.y + (b.y1 + b.y2) / 2;
        rest := [WarpTo(x, y)];
        events := events + rest;
      }
    }
    if constraint.value.kind == Confined {
      confine := region;
    }
    SwitchLeavesActive(before, previous, constraint, rest);
  }

  /**
   * A tablet tool moved.  Over a surface that takes tablet input the tool
   * talks to it directly, leaving fallback mode (and any grab) if it was in
   * it; elsewhere it goes out of proximity, enters fallback mode and moves
   * the cursor like a pointer.
   */
  method HandleTabletToolPosition(tool: TabletTool, accepts: Surface -> bool, changeX: bool, changeY: bool,
                                  absX: int, absY: int, dx: int, dy: int, time: int, hitTest: HitTest)
    modifies this`x, this`y, this`mode, this`events, tool`inFallbackMode, seat.focusedView
    ensures !changeX && !changeY ==>
      x == old(x) && y == old(y) && mode == old(mode) && events == old(events) && tool.inFallbackMode == old(tool.inFallbackMode)
    ensures changeX || changeY ==>
      && x == (if tool.isMouse then old(x) + dx else if changeX then absX else old(x))
      && y == (if tool.isMouse then old(y) + dy else if changeY then absY else old(y))
    ensures var hit := hitTest(x, y);
      var native := hit.surface.Some? && accepts(hit.surface.value);
      && (changeX || changeY ==> (tool.inFallbackMode <==> !native))
      && ((changeX || changeY) && native ==>
            && mode == (if old(tool.inFallbackMode) then Passthrough else old(mode))
            && events == old(events) + [ToolProximityIn(hit.surface.value), ToolMotion(hit.sx, hit.sy)])
      && ((changeX || changeY) && !native ==>
            && mode == old(mode)
            && events == old(events) + [ToolProximityOut] + (if mode == Passthrough then [PassthroughAt(time)] else []))
    ensures var v := seat.focusedView;
      var native := hitTest(x, y).surface.Some? && accepts(hitTest(x, y).surface.value);
      v != null ==>
        && unchanged(v`x, v`y, v`width, v`height, v`rotation, v`maximized, v`saved)
        && ((!changeX && !changeY) || native || mode == Passthrough ==> v.requests == old(v.requests))
        && ((changeX || changeY) && !native && mode == Move ==>
              v.requests == old(v.requests) + [MoveTo(viewX + (x - offsX), viewY + (y - offsY))])
        && ((changeX || changeY) && !native && mode == Resize ==>
              v.requests == old(v.requests)
                + [ResizeTarget(resizeEdges, Box(viewX, viewY, viewWidth, viewHeight), (v.x, v.y), x - offsX, y - offsY)])
        && ((changeX || changeY) && !native && mode == Rotate ==> v.requests == old(v.requests) + [RotateAround])
  {
    if !changeX && !changeY {
      return;
    }
    MoveTool(tool, changeX, changeY, absX, absY, dx, dy);
    ReportTool(tool, accepts, time, hitTest(x, y));
  }

  /** A puck moves the cursor by its deltas; other tools put it at their absolute position on the axes that changed. */
  method MoveTool(tool: TabletTool, changeX: bool, changeY: bool, absX: int, absY: int, dx: int, dy: int)
    modifies this`x, this`y
    ensures x == (if tool.isMouse then old(x) + dx else if changeX then absX else old(x))
    ensures y == (if tool.isMouse then old(y) + dy else if changeY then absY else old(y))
  {
    if tool.isMouse {
      x, y := x + dx, y + dy;
    } else {
      if changeX {
        x := absX;
      }
      if changeY {
        y := absY;
      }
    }
  }

  /**
   * Reports a tablet tool at the cursor's position: natively to a surface
   * under it that takes tablet input, otherwise as pointer motion with the
   * tool in fallback mode.
   */
  method ReportTool(tool: TabletTool, accepts: Surface -> bool, time: int, hit: Hit)
    modifies this`mode, this`events, tool`inFallbackMode, seat.focusedView
    ensures var native := hit.surface.Some? && accepts(hit.surface.value);
      && (tool.inFallbackMode <==> !native)
      && (native ==>
            && mode == (if old(tool.inFallbackMode) then Passthrough else old(mode))
            && events == old(events) + [ToolProximityIn(hit.surface.value), ToolMotion(hit.sx, hit.sy)])
      && (!native ==>
            && mode == old(mode)
            && events == old(events) + [ToolProximityOut] + (if mode == Passthrough then [PassthroughAt(time)] else []))
    ensures var v := seat.focusedView;
      var native := hit.surface.Some? && accepts(hit.surface.value);
      v != null ==>
        && unchanged(v`x, v`y, v`width, v`height, v`rotation, v`maximized, v`saved)
        && (native || mode == Passthrough ==> v.requests == old(v.requests))
        && (!native && mode == Move ==> v.requests == old(v.requests) + [MoveTo(viewX + (x - offsX), viewY + (y - offsY))])
        && (!native && mode == Resize ==>
              v.requests == old(v.requests)
                + [ResizeTarget(resizeEdges, Box(viewX, viewY, viewWidth, viewHeight), (v.x, v.y), x - offsX, y - offsY)])
        && (!native && mode == Rotate ==> v.requests == old(v.requests) + [RotateAround])
  {
    if hit.surface.None? {
      events := events + [ToolProximityOut];
      tool.inFallbackMode := true;
      UpdatePosition(time);
      return;
    }
    if !accepts(hit.surface.value) {
      events := events + [ToolProximityOut];
      UpdatePosition(time);
      tool.inFallbackMode := true;
      return;
    }
    if tool.inFallbackMode {
      mode := Passthrough;
      tool.inFallbackMode := false;
    }
    events := events + [ToolProximityIn(hit.surface.value), ToolMotion(hit.sx, hit.sy)];
  }

  /**
   * A finger touched the screen.  The cursor image hides; the first finger
   * down with no gesture under way may arm an edge gesture; the touch reaches
   * the surface under it if the seat allows that client input, and the first
   * and second finger then emulate a left and a right button press.
   */
  method TouchDown(touchId: int, lx: int, ly: int, time: int, outputAt: Option<Box>, created: Option<Side>, hitTest: HitTest)
    requires seat.cursor == this && seat.Valid()
    modifies this`mode, this`offsX, this`offsY, this`viewX, this`viewY, this`viewWidth, this`viewHeight
    modifies this`viewRotation, this`resizeEdges, this`events, this`visible, this`currentGesture, pointerView
    modifies seat`events, seat`pointerClient, seat`focusedLayer, seat`hasFocus, seat`views, seat`focusedView
    modifies seat`touchPoints, seat`touchId, seat`touchX, seat`touchY, hitTest(lx, ly).view, seat.focusedView
    ensures seat.Valid()
    ensures !visible && old(events) + [ImageCleared] <= events
    ensures var armed := |old(seat.touchPoints)| == 0 && old(currentGesture).None? && outputAt.Some?;
      && (armed ==> currentGesture == (if created.Some? then Some(Gesture(touchId, created.value)) else None))
      && (!armed ==> currentGesture == old(currentGesture))
    ensures var hit := hitTest(lx, ly);
      var client := if hit.surface.Some? then hit.surface.value.client else 0;
      var delivered := hit.surface.Some? && old(seat.AllowInput(client));
      && (delivered ==> seat.touchPoints == old(seat.touchPoints) + [TouchPoint(touchId, client)])
      && (!delivered ==> seat.touchPoints == old(seat.touchPoints))
      && (delivered && |seat.touchPoints| <= 2 ==> seat.touchId == touchId && seat.touchX == lx && seat.touchY == ly)
      && (delivered && |seat.touchPoints| == 1 && hit.view != null && MetaPressed(seat.keyboards) ==> mode == Move)
      && (delivered && |seat.touchPoints| == 2 && hit.view != null && MetaPressed(seat.keyboards) ==> mode == Resize)
  {
    visible := true;
    SetVisible(false);
    ArmGesture(touchId, outputAt, created);
    DeliverTouchDown(touchId, lx, ly, time, hitTest);
  }

  /** The first finger down, with no gesture under way and an output under it, may begin an edge gesture. */
  method ArmGesture(touchId: int, outputAt: Option<Box>, created: Option<Side>)
    modifies this`currentGesture
    ensures var armed := |seat.touchPoints| == 0 && old(currentGesture).None? && outputAt.Some?;
      && (armed ==> currentGesture == (if created.Some? then Some(Gesture(touchId, created.value)) else None))
      && (!armed ==> currentGesture == old(currentGesture))
  {
    if |seat.touchPoints| == 0 && currentGesture.None? {
      if outputAt.Some? {
        currentGesture := if created.Some? then Some(Gesture(touchId, created.value)) else None;
      }
    }
  }

  /**
   * The touch reaches the surface under it when its client may have input;
   * the first and the second finger then press the left and the right button.
   */
  method DeliverTouchDown(touchId: int, lx: int, ly: int, time: int, hitTest: HitTest)
    requires seat.cursor == this && seat.Valid()
    modifies this`mode, this`offsX, this`offsY, this`viewX, this`viewY, this`viewWidth, this`viewHeight
    modifies this`viewRotation, this`resizeEdges, this`events, pointerView
    modifies seat`events, seat`pointerClient, seat`focusedLayer, seat`hasFocus, seat`views, seat`focusedView
    modifies seat`touchPoints, seat`touchId, seat`touchX, seat`touchY, hitTest(lx, ly).view, seat.focusedView
    ensures seat.Valid() && old(events) <= events
    ensures var hit := hitTest(lx, ly);
      var client := if hit.surface.Some? then hit.surface.value.client else 0;
      var delivered := hit.surface.Some? && old(seat.AllowInput(client));
      && (delivered ==> seat.touchPoints == old(seat.touchPoints) + [TouchPoint(touchId, client)])
      && (!delivered ==> seat.touchPoints == old(seat.touchPoints))
      && (delivered && |seat.touchPoints| <= 2 ==> seat.touchId == touchId && seat.touchX == lx && seat.touchY == ly)
      && (delivered && |seat.touchPoints| == 1 && hit.view != null && MetaPressed(seat.keyboards) ==> mode == Move)
      && (delivered && |seat.touchPoints| == 2 && hit.view != null && MetaPressed(seat.keyboards) ==> mode == Resize)
  {
    var hit := hitTest(lx, ly);
    var delivered := false;
    if hit.surface.Some? && seat.AllowInput(hit.surface.value.client) {
      seat.NotifyTouchDown(hit.surface.value, touchId, hit.sx, hit.sy);
      delivered := true;
    }
    if delivered && |seat.touchPoints| == 1 {
      EmulateTouchPress(LeftButton, touchId, lx, ly, time, hitTest);
    }
    if delivered && |seat.touchPoints| == 2 {
      EmulateTouchPress(RightButton, touchId, lx, ly, time, hitTest);
    }
  }

  /** A touch point becomes the one that emulates the pointer buttons, and presses `button`. */
  method EmulateTouchPress(button: Button, touchId: int, lx: int, ly: int, time: int, hitTest: HitTest)
    requires seat.cursor == this && seat.Valid()
    modifies this`mode, this`offsX, this`offsY, this`viewX, this`viewY, this`viewWidth, this`viewHeight
    modifies this`viewRotation, this`resizeEdges, this`events, pointerView
    modifies seat`events, seat`pointerClient, seat`focusedLayer, seat`hasFocus, seat`views, seat`focusedView
    modifies seat`touchId, seat`touchX, seat`touchY, hitTest(lx, ly).view, seat.focusedView
    ensures seat.Valid() && old(events) <= events
    ensures seat.touchId == touchId && seat.touchX == lx && seat.touchY == ly
    ensures hitTest(lx, ly).view != null && MetaPressed(seat.keyboards) ==>
      (button == LeftButton ==> mode == Move) && (button == RightButton ==> mode == Resize)
  {
    seat.touchId, seat.touchX, seat.touchY := touchId, lx, ly;
    PressButton(true, time, button, Pressed, lx, ly, hitTest);
  }

  /**
   * A finger left the screen.  A gesture under way ends, running its command
   * if it was accomplished; if the finger was a known touch point, the button
   * its count emulates is released at the emulated button's point and the
   * point goes away.
   */
  method TouchUp(touchId: int, time: int, completed: bool, hitTest: HitTest)
    requires seat.cursor == this && seat.Valid()
    modifies this`mode, this`offsX, this`offsY, this`viewX, this`viewY, this`viewWidth, this`viewHeight
    modifies this`viewRotation, this`resizeEdges, this`events, this`currentGesture, pointerView
    modifies seat`events, seat`pointerClient, seat`focusedLayer, seat`hasFocus, seat`views, seat`focusedView
    modifies seat`touchPoints, hitTest(seat.touchX, seat.touchY).view, seat.focusedView
    ensures seat.Valid()
    ensures currentGesture.None?
    ensures old(events) + GestureEvents(old(currentGesture), completed) <= events
    ensures !HasPoint(old(seat.touchPoints), touchId) ==> seat.touchPoints == old(seat.touchPoints) && mode == old(mode)
    ensures HasPoint(old(seat.touchPoints), touchId) ==> seat.touchPoints == RemovePoint(old(seat.touchPoints), touchId)
    ensures HasPoint(old(seat.touchPoints), touchId) && 1 <= |old(seat.touchPoints)| <= 2 ==> mode == Passthrough
  {
    EndGesture(completed);
    ReleaseTouchPoint(touchId, time, hitTest);
  }

  /** A gesture under way ends with the finger; if it was accomplished its command runs. */
  method EndGesture(completed: bool)
    modifies this`currentGesture, this`events
    ensures currentGesture.None?
    ensures events == old(events) + GestureEvents(old(currentGesture), completed)
  {
    if currentGesture.Some? {
      if completed {
        var command := GestureCommand(currentGesture.value.side);
        if command.Some? {
          events := events + [RunCommand(command.value)];
        }
      }
      currentGesture := None;
    }
  }

  /**
   * A known touch point goes up: the button its count emulates is released
   * at the emulated button's point, and the point is gone.
   */
  method ReleaseTouchPoint(touchId: int, time: int, hitTest: HitTest)
    requires seat.cursor == this && seat.Valid()
    modifies this`mode, this`offsX, this`offsY, this`viewX, this`viewY, this`viewWidth, this`viewHeight
    modifies this`viewRotation, this`resizeEdges, this`events, pointerView
    modifies seat`events, seat`pointerClient, seat`focusedLayer, seat`hasFocus, seat`views, seat`focusedView
    modifies seat`touchPoints, hitTest(seat.touchX, seat.touchY).view, seat.focusedView
    ensures seat.Valid() && old(events) <= events
    ensures !HasPoint(old(seat.touchPoints), touchId) ==> seat.touchPoints == old(seat.touchPoints) && mode == old(mode)
    ensures HasPoint(old(seat.touchPoints), touchId) ==> seat.touchPoints == RemovePoint(old(seat.touchPoints), touchId)
    ensures HasPoint(old(seat.touchPoints), touchId) && 1 <= |old(seat.touchPoints)| <= 2 ==> mode == Passthrough
  {
    if !HasPoint(seat.touchPoints, touchId) {
      return;
    }
    if |seat.touchPoints| == 1 {
      PressButton(true, time, LeftButton, Released, seat.touchX, seat.touchY, hitTest);
    }
    if |seat.touchPoints| == 2 {
      PressButton(true, time, RightButton, Released, seat.touchX, seat.touchY, hitTest);
    }
    seat.NotifyTouchUp(touchId);
  }
}
