/*
 * A seat: its input devices, the keyboard focus (a view or a layer surface),
 * the client that may hold input exclusively (a screen locker), the
 * compositor grabs it starts on its cursor, and its per-view state.
 */

// wl_seat capability bits
const CapPointer: bv32 := 1
const CapKeyboard: bv32 := 2
const CapTouch: bv32 := 4

// The parts of a server-side decoration, one bit each
const DecoTopBorder: bv32 := 1
const DecoBottomBorder: bv32 := 2
const DecoLeftBorder: bv32 := 4
const DecoRightBorder: bv32 := 8
const DecoTitlebar: bv32 := 16

/** A keyboard's configured meta key (0 for none) and the modifiers it holds down now. */
datatype Keyboard = Keyboard(metaKey: bv32, modifiers: bv32)

/** A finger on the screen, and the client whose surface it went down on. */
datatype TouchPoint = TouchPoint(touchId: int, client: ClientId)

/** What the seat tells its clients (through the `wlr_seat`), in order. */
datatype SeatEvent =
  | Capabilities(caps: bv32)
  | PointerButton(time: int, button: Button, state: ButtonState)
  | PointerClearFocus
  | KeyboardClearFocus
  | KeyboardEndGrab
  | KeyboardEnter(target: Option<Surface>)
  | TouchDown(surface: Surface, touchId: int, sx: int, sy: int)
  | TouchUp(touchId: int)
  | TouchPointClearFocus(touchId: int)
  | ArrangeAllOutputs                 // every output's layers are arranged again

/** Meta is pressed when some keyboard with a meta key holds exactly that modifier set. */
predicate MetaPressed(keyboards: seq<Keyboard>) {
  exists k :: 0 <= k < |keyboards| && HoldsMeta(keyboards[k])
}

predicate HoldsMeta(keyboard: Keyboard) {
  keyboard.metaKey != 0 && keyboard.modifiers == keyboard.metaKey
}

/** The modifier test as the source writes it, with exclusive or: it holds exactly for equal masks. */
predicate ModifiersAreMeta(modifiers: bv32, metaKey: bv32)
  ensures ModifiersAreMeta(modifiers, metaKey) <==> modifiers == metaKey
{
  modifiers ^ metaKey == 0
}

predicate HasPoint(points: seq<TouchPoint>, touchId: int) {
  exists i :: 0 <= i < |points| && points[i].touchId == touchId
}

/** The touch points once the first one with `touchId` has gone. */
function RemovePoint(points: seq<TouchPoint>, touchId: int): (r: seq<TouchPoint>)
  ensures HasPoint(points, touchId) ==> |r| == |points| - 1
  ensures !HasPoint(points, touchId) ==> r == points
  ensures multiset(r) <= multiset(points)
{
  if |points| == 0 then []
  else if points[0].touchId == touchId then
    assert points == [points[0]] + points[1..];
    points[1..]
  else
    assert HasPoint(points, touchId) ==> HasPoint(points[1..], touchId) by {
      if HasPoint(points, touchId) {
        var i :| 0 <= i < |points| && points[i].touchId == touchId;
        assert points[1..][i - 1].touchId == touchId;
      }
    }
    assert !HasPoint(points, touchId) ==> !HasPoint(points[1..], touchId) by {
      if HasPoint(points[1..], touchId) {
        var i :| 0 <= i < |points[1..]| && points[1..][i].touchId == touchId;
        assert points[i + 1].touchId == touchId;
      }
    }
    assert points == [points[0]] + points[1..];
    [points[0]] + RemovePoint(points[1..], touchId)
}

/** The touch-focus clearings an exclusive client causes: one per point of another client, in order. */
function TouchClears(points: seq<TouchPoint>, client: ClientId): (r: seq<SeatEvent>)
  ensures |r| <= |points|
  ensures forall k :: 0 <= k < |r| ==> r[k].TouchPointClearFocus?
{
  if |points| == 0 then []
  else
    TouchClears(points[..|points| - 1], client)
      + (if points[|points| - 1].client != client then [TouchPointClearFocus(points[|points| - 1].touchId)] else [])
}

/** A touch point loses its focus to an exclusive client exactly when it belongs to another client. */
lemma {:induction false} TouchClearsExactlyOthers(points: seq<TouchPoint>, client: ClientId, id: int)
  ensures TouchPointClearFocus(id) in TouchClears(points, client)
    <==> exists i :: 0 <= i < |points| && points[i].touchId == id && points[i].client != client
  decreases |points|
{
  if |points| > 0 {
    var init := points[..|points| - 1];
    TouchClearsExactlyOthers(init, client, id);
    if exists i :: 0 <= i < |init| && init[i].touchId == id && init[i].client != client {
      var i :| 0 <= i < |init| && init[i].touchId == id && init[i].client != client;
      assert points[i] == init[i];
    }
    if exists i :: 0 <= i < |points| && points[i].touchId == id && points[i].client != client {
      var i :| 0 <= i < |points| && points[i].touchId == id && points[i].client != client;
      if i < |init| {
        assert init[i] == points[i];
      }
    }
  }
}

/** A new touch point that goes up again leaves the other points as they were. */
lemma {:induction false} TouchDownThenUp(points: seq<TouchPoint>, p: TouchPoint)
  requires !HasPoint(points, p.touchId)
  ensures RemovePoint(points + [p], p.touchId) == points
  decreases |points|
{
  if |points| == 0 {
    assert points + [p] == [p];
  } else {
    assert points[0].touchId != p.touchId;
    assert (points + [p])[0] == points[0];
    assert (points + [p])[1..] == points[1..] + [p];
    TouchDownThenUp(points[1..], p);
    assert points == [points[0]] + points[1..];
  }
}

/**
 * The edge a resize from the decoration takes hold of: the left border wins
 * over the right one, which wins over the bottom one, which wins over the
 * top one.
 */
function DecoEdges(parts: bv32): (edges: bv32)
  ensures edges == EdgeLeft <==> parts & DecoLeftBorder != 0
  ensures edges == EdgeRight <==> parts & DecoLeftBorder == 0 && parts & DecoRightBorder != 0
  ensures edges == EdgeBottom <==> parts & (DecoLeftBorder | DecoRightBorder) == 0 && parts & DecoBottomBorder != 0
  ensures edges == EdgeTop <==>
    parts & (DecoLeftBorder | DecoRightBorder | DecoBottomBorder) == 0 && parts & DecoTopBorder != 0
  ensures edges == EdgeNone <==> parts & (DecoLeftBorder | DecoRightBorder | DecoBottomBorder | DecoTopBorder) == 0
{
  if parts & DecoLeftBorder != 0 then EdgeLeft
  else if parts & DecoRightBorder != 0 then EdgeRight
  else if parts & DecoBottomBorder != 0 then EdgeBottom
  else if parts & DecoTopBorder != 0 then EdgeTop
  else EdgeNone
}

/** The position of the first seat view of `view`, or -1. */
function IndexOfView(views: seq<SeatView>, view: View): (i: int)
  ensures -1 <= i < |views|
  ensures 0 <= i ==> views[i].view == view && forall j :: 0 <= j < i ==> views[j].view != view
  ensures i == -1 ==> forall j :: 0 <= j < |views| ==> views[j].view != view
{
  if |views| == 0 then -1
  else if views[0].view == view then 0
  else
    var k := IndexOfView(views[1..], view);
    if k < 0 then -1 else k + 1
}

/** No view has two seat views. */
predicate DistinctViews(views: seq<SeatView>) {
  forall i, j :: 0 <= i < j < |views| ==> views[i].view != views[j].view
}

/**
 * The seat's layer focus after `set_focus_layer` is called with each
 * output's topmost keyboard-interactive surface in turn, while no client
 * holds input exclusively: an output without one clears the layer focus,
 * and only a top or overlay surface takes it.
 */
function LayerFocusAfter(focused: Option<LayerRef>, topmosts: seq<Option<LayerRef>>): (r: Option<LayerRef>)
  ensures r.Some? ==> r == focused || (r in topmosts && r.value.layer >= LayerShell.LayerTop)
  ensures None in topmosts ==> r.None? || r in topmosts
  ensures |topmosts| > 0 && topmosts[|topmosts| - 1].None? ==> r.None?
{
  if |topmosts| == 0 then focused
  else
    var t := topmosts[|topmosts| - 1];
    var before := LayerFocusAfter(focused, topmosts[..|topmosts| - 1]);
    if t.None? then None
    else if t.value.layer >= LayerShell.LayerTop then t
    else before
}

/**
 * The view losing the focus is deactivated, unless it is focused again or the
 * newly focused view is an override-redirect window.
 */
method DeactivatePrevious(prev: View?, next: View?)
  modifies prev
  ensures prev != null ==>
    prev.requests == old(prev.requests) + (if prev != next && !(next != null && next.overrideRedirect) then [Activate(false)] else [])
{
  if prev != null && prev != next && !(next != null && next.overrideRedirect) {
    prev.requests := prev.requests + [Activate(false)];
  }
}

/** The seat's state for one view: a pending button grab on its decoration. */
class SeatView {
  const seat: Seat
  const view: View
  var hasButtonGrab: bool
  var grabSx: int
  var grabSy: int

  constructor (seat: Seat, view: View)
    ensures this.seat == seat && this.view == view && !hasButtonGrab
  {
    this.seat := seat;
    this.view := view;
    hasButtonGrab := false;
    grabSx, grabSy := 0, 0;
  }

  /**
   * A button on the decoration: a left press arms a grab at that point, any
   * other button or a release disarms it.
   */
  method DecoButton(sx: int, sy: int, button: Button, state: ButtonState)
    modifies this`hasButtonGrab, this`grabSx, this`grabSy
    ensures hasButtonGrab <==> button == LeftButton && state == Pressed
    ensures hasButtonGrab ==> grabSx == sx && grabSy == sy
    ensures !hasButtonGrab ==> grabSx == old(grabSx) && grabSy == old(grabSy)
  {
    if button == LeftButton && state == Pressed {
      hasButtonGrab := true;
      grabSx := sx;
      grabSy := sy;
    } else {
      hasButtonGrab := false;
    }
  }

  /**
   * Pointer motion over the decoration.  With a grab armed, the part where
   * the button went down decides: the title bar starts a move, a border a
   * resize from that edge; the grab is used up either way.
   */
  method DecoMotion(decoSx: int, decoSy: int)
    requires seat.Valid()
    modifies this`hasButtonGrab, seat`events, seat`pointerClient, seat.cursor, view`requests
    ensures seat.Valid() && !hasButtonGrab
    ensures var parts := if old(hasButtonGrab) then view.decoPartAt(grabSx, grabSy) else view.decoPartAt(decoSx, decoSy);
      && (old(hasButtonGrab) && parts & DecoTitlebar != 0 ==> seat.cursor.mode == Move)
      && (old(hasButtonGrab) && parts & DecoTitlebar == 0 && DecoEdges(parts) != EdgeNone ==>
            seat.cursor.mode == Resize && seat.cursor.resizeEdges == DecoEdges(parts))
      && (!old(hasButtonGrab) || (parts & DecoTitlebar == 0 && DecoEdges(parts) == EdgeNone) ==>
            seat.cursor.mode == old(seat.cursor.mode) && view.requests == old(view.requests))
  {
    var sx, sy := decoSx, decoSy;
    if hasButtonGrab {
      sx, sy := grabSx, grabSy;
    }
    var parts := view.decoPartAt(sx, sy);
    var isTitlebar := parts & DecoTitlebar != 0;
    var edges := DecoEdges(parts);
    if hasButtonGrab {
      if isTitlebar {
        seat.BeginMove(view);
      } else if edges != EdgeNone {
        seat.BeginResize(view, edges);
      }
      hasButtonGrab := false;
    }
  }
}

class Seat {
  var cursor: Cursor?
  var keyboards: seq<Keyboard>
  var pointers: seq<nat>
  var tablets: seq<nat>
  var touch: seq<nat>
  /** The capabilities last announced to clients. */
  var capabilities: bv32
  var focusedView: View?
  /** Whether the keyboard focus is on `focusedView` (and not on a layer surface). */
  var hasFocus: bool
  var focusedLayer: Option<LayerRef>
  var exclusiveClient: Option<ClientId>
  var views: seq<SeatView>
  /** The touch point that emulates the pointer buttons, and where it is. */
  var touchId: int
  var touchX: int
  var touchY: int
  /** The `wlr_seat`'s touch points and pointer focus. */
  var touchPoints: seq<TouchPoint>
  var pointerClient: Option<ClientId>
  var events: seq<SeatEvent>

  constructor ()
    ensures Valid() && fresh(cursor) && cursor.mode == Passthrough
    ensures keyboards == [] && pointers == [] && tablets == [] && touch == [] && views == [] && touchPoints == []
    ensures focusedView == null && !hasFocus && focusedLayer.None? && exclusiveClient.None?
  {
    keyboards, pointers, tablets, touch := [], [], [], [];
    capabilities := 0;
    focusedView := null;
    hasFocus := false;
    focusedLayer := None;
    exclusiveClient := None;
    views := [];
    touchId, touchX, touchY := -1, 0, 0;
    touchPoints := [];
    pointerClient := None;
    events := [];
    new;
    cursor := new Cursor(this);
  }

  /** The seat owns its cursor, and keyboard focus on a view needs a view. */
  predicate Valid()
    reads this`cursor, this`hasFocus, this`focusedView
  {
    cursor != null && cursor.seat == this && (hasFocus ==> focusedView != null)
  }

  /** While a client holds input exclusively, no other client gets any. */
  predicate AllowInput(client: ClientId)
    reads this`exclusiveClient
    ensures exclusiveClient.None? ==> AllowInput(client)
    ensures AllowInput(client) && exclusiveClient.Some? ==> exclusiveClient == Some(client)
  {
    exclusiveClient.None? || exclusiveClient.value == client
  }

  /** Focusing `view` is refused when its surface's client may not have input. */
  predicate Refuses(view: View?)
    reads this`exclusiveClient
    ensures Refuses(view) ==> view != null && ClientOf(view).Some? && !AllowInput(ClientOf(view).value)
    ensures view == null || view.surface.None? || exclusiveClient.None? ==> !Refuses(view)
  {
    view != null && view.surface.Some? && !AllowInput(view.surface.value.client)
  }

  /**
   * Announces which kinds of device the seat has: a keyboard, a pointer
   * (a mouse or a tablet) and touch; without a pointer the cursor image is
   * hidden.
   */
  method UpdateCapabilities()
    requires Valid()
    modifies this`capabilities, this`events, cursor`events
    ensures capabilities & CapKeyboard != 0 <==> |keyboards| > 0
    ensures capabilities & CapPointer != 0 <==> |pointers| > 0 || |tablets| > 0
    ensures capabilities & CapTouch != 0 <==> |touch| > 0
    ensures capabilities & !(CapPointer | CapKeyboard | CapTouch) == 0
    ensures events == old(events) + [Capabilities(capabilities)]
    ensures cursor.events == old(cursor.events) + [if capabilities & CapPointer == 0 then ImageCleared else ImageDefault]
  {
    var caps: bv32 := 0;
    if |keyboards| > 0 {
      caps := caps | CapKeyboard;
    }
    if |pointers| > 0 || |tablets| > 0 {
      caps := caps | CapPointer;
    }
    if |touch| > 0 {
      caps := caps | CapTouch;
    }
    capabilities := caps;
    events := events + [Capabilities(caps)];
    if caps & CapPointer == 0 {
      cursor.events := cursor.events + [ImageCleared];
    } else {
      cursor.events := cursor.events + [ImageDefault];
    }
  }

  /** Whether some keyboard holds exactly its meta modifier. */
  method HasMetaPressed() returns (pressed: bool)
    ensures pressed <==> MetaPressed(keyboards)
  {
    for k := 0 to |keyboards|
      invariant forall j :: 0 <= j < k ==> !HoldsMeta(keyboards[j])
    {
      var keyboard := keyboards[k];
      if keyboard.metaKey != 0 && ModifiersAreMeta(keyboard.modifiers, keyboard.metaKey) {
        return true;
      }
    }
    return false;
  }

  /** The seat's state for `view`, made on first use. */
  method SeatViewFromView(view: View) returns (seatView: SeatView)
    modifies this`views
    ensures seatView.view == view && seatView in views
    ensures var i := IndexOfView(old(views), view);
      && (i >= 0 ==> views == old(views) && seatView == views[i])
      && (i < 0 ==> views == old(views) + [seatView] && fresh(seatView) && seatView.seat == this && !seatView.hasButtonGrab)
    ensures DistinctViews(old(views)) ==> DistinctViews(views)
  {
    var k := 0;
    while k < |views|
      invariant 0 <= k <= |views|
      invariant forall j :: 0 <= j < k ==> views[j].view != view
    {
      if views[k].view == view {
        return views[k];
      }
      k := k + 1;
    }
    seatView := new SeatView(this, view);
    views := views + [seatView];
  }

  /** A touch point goes down on `surface`. */
  method NotifyTouchDown(surface: Surface, id: int, sx: int, sy: int)
    modifies this`touchPoints, this`events
    ensures touchPoints == old(touchPoints) + [TouchPoint(id, surface.client)]
    ensures events == old(events) + [TouchDown(surface, id, sx, sy)]
  {
    touchPoints := touchPoints + [TouchPoint(id, surface.client)];
    events := events + [TouchDown(surface, id, sx, sy)];
  }

  /** A touch point goes up. */
  method NotifyTouchUp(id: int)
    modifies this`touchPoints, this`events
    ensures touchPoints == RemovePoint(old(touchPoints), id)
    ensures events == old(events) + [TouchUp(id)]
  {
    touchPoints := RemovePoint(touchPoints, id);
    events := events + [TouchUp(id)];
  }

  /**
   * Gives the keyboard focus to `view`, or takes it away for null.  A view of
   * a client without input rights is refused.  The previous view is
   * deactivated unless it is focused again or the new one is an
   * override-redirect window; while a layer surface holds the focus the view
   * becomes the seat's view without being activated.
   */
  method SetFocus(view: View?)
    requires Valid()
    modifies this`hasFocus, this`focusedView, this`views, this`events, cursor`mode, cursor`events
    modifies view, focusedView
    ensures Valid() && old(events) <= events && focusedLayer == old(focusedLayer)
    ensures Refuses(view) ==>
      && focusedView == old(focusedView) && hasFocus == old(hasFocus) && views == old(views)
      && events == old(events) && cursor.mode == old(cursor.mode) && cursor.events == old(cursor.events)
      && (view != null ==> view.requests == old(view.requests))
      && (var prev := old(focusedView); prev != null ==> prev.requests == old(prev.requests))
    ensures !Refuses(view) ==> focusedView == view && (hasFocus <==> view != null && focusedLayer.None?)
    ensures !Refuses(view) && view == null ==>
      cursor.mode == Passthrough && events == old(events) + [KeyboardClearFocus] && cursor.events == old(cursor.events)
    ensures !Refuses(view) && view != null ==>
      IndexOfView(views, view) >= 0 && cursor.mode == old(cursor.mode)
    ensures !Refuses(view) && view != null && focusedLayer.None? ==>
      && events == old(events) + [KeyboardEndGrab, KeyboardEnter(view.surface)]
      && cursor.events == old(cursor.events) + [PassthroughAt(-1)]
      && view.requests == old(view.requests) + [Activate(true)]
    ensures !Refuses(view) && view != null && focusedLayer.Some? ==>
      events == old(events) && cursor.events == old(cursor.events) && view.requests == old(view.requests)
    ensures var prev := old(focusedView);
      !Refuses(view) && prev != null && prev != view ==>
        prev.requests == old(prev.requests) + (if view != null && view.overrideRedirect then [] else [Activate(false)])
  {
    if view != null && view.surface.Some? && !AllowInput(view.surface.value.client) {
      return;
    }
    if view != null {
      var seatView := SeatViewFromView(view);
    }
    hasFocus := false;
    var prev := focusedView;
    focusedView := view;
    DeactivatePrevious(prev, view);
    if view == null {
      cursor.mode := Passthrough;
      events := events + [KeyboardClearFocus];
      return;
    }
    if focusedLayer.None? {
      EnterView(view);
    }
  }

  /** Activates the newly focused view and enters its surface with the keyboard. */
  method EnterView(view: View)
    requires Valid() && focusedView == view
    modifies this`hasFocus, this`events, cursor`events, view`requests
    ensures Valid() && hasFocus
    ensures events == old(events) + [KeyboardEndGrab, KeyboardEnter(view.surface)]
    ensures cursor.events == old(cursor.events) + [PassthroughAt(-1)]
    ensures view.requests == old(view.requests) + [Activate(true)]
  {
    view.requests := view.requests + [Activate(true)];
    hasFocus := true;
    events := events + [KeyboardEndGrab, KeyboardEnter(view.surface)];
    cursor.UpdateFocus();
  }

  /**
   * Gives the keyboard focus to a layer surface, or with None gives it back to
   * the seat's view.  Only a surface on the top or overlay layer keeps the
   * focus against the views; one on a lower layer gets it until a view is
   * focused.
   */
  method SetFocusLayer(layer: Option<LayerRef>)
    requires Valid()
    modifies this`focusedLayer, this`hasFocus, this`focusedView, this`views, this`events, cursor`mode, cursor`events
    modifies focusedView
    ensures Valid() && old(events) <= events && focusedView == old(focusedView)
    ensures layer.None? ==>
      focusedLayer.None? && (!old(Refuses(focusedView)) ==> (hasFocus <==> focusedView != null))
    ensures layer.Some? && !AllowInput(layer.value.surface.client) ==>
      && focusedLayer == old(focusedLayer) && hasFocus == old(hasFocus)
      && events == old(events) && cursor.events == old(cursor.events)
    ensures layer.Some? && AllowInput(layer.value.surface.client) ==>
      && !hasFocus
      && focusedLayer == (if layer.value.layer >= LayerShell.LayerTop then layer else old(focusedLayer))
      && events == old(events) + (if old(hasFocus) then [KeyboardClearFocus] else []) + [KeyboardEnter(Some(layer.value.surface))]
      && cursor.events == old(cursor.events) + [PassthroughAt(-1)]
      && (old(hasFocus) ==> focusedView.requests == old(focusedView.requests) + [Activate(false)])
    ensures layer.Some? ==> cursor.mode == old(cursor.mode) && views == old(views)
  {
    if layer.None? {
      focusedLayer := None;
      SetFocus(focusedView);
      return;
    }
    var l := layer.value;
    if !AllowInput(l.surface.client) {
      return;
    }
    if hasFocus {
      var prev := focusedView;
      events := events + [KeyboardClearFocus];
      prev.requests := prev.requests + [Activate(false)];
    }
    hasFocus := false;
    if l.layer >= LayerShell.LayerTop {
      focusedLayer := layer;
    }
    events := events + [KeyboardEnter(Some(l.surface))];
    cursor.UpdateFocus();
  }

  /**
   * Lets only `client` have input (None lets every client have it again).
   * The focused layer surface, the focused view, the pointer focus and the
   * touch points of other clients lose their focus.  Clearing the exclusive
   * client arranges every output again; `topmosts` holds the topmost
   * keyboard-interactive surface each of those arrangements offers the seat.
   */
  method SetExclusiveClient(client: Option<ClientId>, topmosts: seq<Option<LayerRef>>)
    requires Valid()
    modifies this`exclusiveClient, this`focusedLayer, this`hasFocus, this`focusedView, this`views, this`events
    modifies this`pointerClient, cursor`mode, cursor`events, focusedView
    ensures Valid() && exclusiveClient == client && touchPoints == old(touchPoints) && old(events) <= events
    ensures forall c: ClientId :: AllowInput(c) <==> client.None? || client == Some(c)
    ensures client.None? ==>
      && old(events) + [ArrangeAllOutputs] <= events
      && focusedView == old(focusedView) && focusedLayer == LayerFocusAfter(old(focusedLayer), topmosts)
      && (|topmosts| == 0 ==> hasFocus == old(hasFocus))
      && (|topmosts| > 0 ==> (hasFocus <==> topmosts[|topmosts| - 1].None? && focusedView != null))
    ensures client.Some? ==>
      && (focusedLayer.Some? ==> focusedLayer.value.surface.client == client.value)
      && (old(focusedLayer).Some? && old(focusedLayer).value.surface.client == client.value ==> focusedLayer == old(focusedLayer))
      && (hasFocus ==> ClientOf(focusedView) == client)
      && (pointerClient.Some? ==> pointerClient == client)
      && |TouchClears(touchPoints, client.value)| <= |events|
      && events[|events| - |TouchClears(touchPoints, client.value)|..] == TouchClears(touchPoints, client.value)
  {
    if client.None? {
      exclusiveClient := None;
      events := events + [ArrangeAllOutputs];
      RefocusTopmost(topmosts);
      return;
    }
    var c := client.value;
    if focusedLayer.Some? && focusedLayer.value.surface.client != c {
      SetFocusLayer(None);
    }
    if hasFocus && ClientOf(focusedView) != client {
      SetFocus(null);
    }
    if pointerClient.Some? && pointerClient.value != c {
      events := events + [PointerClearFocus];
      pointerClient := None;
    }
    ClearOtherTouchFocus(c);
    exclusiveClient := client;
  }

  /**
   * The seat side of arranging every output again: each output offers its
   * topmost keyboard-interactive layer surface, or none, to the seat in turn.
   */
  method RefocusTopmost(topmosts: seq<Option<LayerRef>>)
    requires Valid() && exclusiveClient.None?
    modifies this`focusedLayer, this`hasFocus, this`focusedView, this`views, this`events
    modifies cursor`mode, cursor`events, focusedView
    ensures Valid() && focusedView == old(focusedView) && old(events) <= events
    ensures focusedLayer == LayerFocusAfter(old(focusedLayer), topmosts)
    ensures |topmosts| == 0 ==> hasFocus == old(hasFocus)
    ensures |topmosts| > 0 ==> (hasFocus <==> topmosts[|topmosts| - 1].None? && focusedView != null)
  {
    for i := 0 to |topmosts|
      invariant Valid() && exclusiveClient.None? && focusedView == old(focusedView) && old(events) <= events
      invariant focusedLayer == LayerFocusAfter(old(focusedLayer), topmosts[..i])
      invariant i == 0 ==> hasFocus == old(hasFocus)
      invariant i > 0 ==> (hasFocus <==> topmosts[i - 1].None? && focusedView != null)
    {
      assert topmosts[..i + 1][..i] == topmosts[..i];
      SetFocusLayer(topmosts[i]);
    }
    assert topmosts[..|topmosts|] == topmosts;
  }

  /** Takes the touch focus from every touch point of a client other than `client`. */
  method ClearOtherTouchFocus(client: ClientId)
    modifies this`events
    ensures events == old(events) + TouchClears(touchPoints, client)
  {
    var i := 0;
    while i < |touchPoints|
      invariant 0 <= i <= |touchPoints|
      invariant events == old(events) + TouchClears(touchPoints[..i], client)
    {
      assert touchPoints[..i + 1][..i] == touchPoints[..i];
      if touchPoints[i].client != client {
        events := events + [TouchPointClearFocus(touchPoints[i].touchId)];
      }
      i := i + 1;
    }
    assert touchPoints[..i] == touchPoints;
  }

  /**
   * Starts moving `view` with the cursor, from where it is or, when it is
   * maximized, from where it was before.
   */
  method BeginMove(view: View)
    requires Valid()
    modifies cursor`mode, cursor`offsX, cursor`offsY, cursor`viewX, cursor`viewY, view`requests
    modifies this`events, this`pointerClient
    ensures Valid()
    ensures cursor.mode == Move && cursor.offsX == cursor.x && cursor.offsY == cursor.y
    ensures cursor.viewX == (if view.maximized then view.saved.x else view.x)
    ensures cursor.viewY == (if view.maximized then view.saved.y else view.y)
    ensures view.requests == old(view.requests) + [Unmaximize]
    ensures events == old(events) + [PointerClearFocus] && pointerClient.None?
  {
    cursor.mode := Move;
    cursor.offsX := cursor.x;
    cursor.offsY := cursor.y;
    if view.maximized {
      cursor.viewX := view.saved.x;
      cursor.viewY := view.saved.y;
    } else {
      cursor.viewX := view.x;
      cursor.viewY := view.y;
    }
    view.requests := view.requests + [Unmaximize];
    events := events + [PointerClearFocus];
    pointerClient := None;
  }

  /** Starts resizing `view` from `edges`, taking its geometry as BeginMove takes its position. */
  method BeginResize(view: View, edges: bv32)
    requires Valid()
    modifies cursor`mode, cursor`offsX, cursor`offsY, cursor`viewX, cursor`viewY, cursor`viewWidth, cursor`viewHeight
    modifies cursor`resizeEdges, view`requests, this`events, this`pointerClient
    ensures Valid()
    ensures cursor.mode == Resize && cursor.offsX == cursor.x && cursor.offsY == cursor.y && cursor.resizeEdges == edges
    ensures Box(cursor.viewX, cursor.viewY, cursor.viewWidth, cursor.viewHeight)
         == (if view.maximized then view.saved else Box(view.x, view.y, view.width, view.height))
    ensures view.requests == old(view.requests) + [Unmaximize]
    ensures events == old(events) + [PointerClearFocus] && pointerClient.None?
  {
    cursor.mode := Resize;
    cursor.offsX := cursor.x;
    cursor.offsY := cursor.y;
    if view.maximized {
      cursor.viewX := view.saved.x;
      cursor.viewY := view.saved.y;
      cursor.viewWidth := view.saved.width;
      cursor.viewHeight := view.saved.height;
    } else {
      cursor.viewX := view.x;
      cursor.viewY := view.y;
      cursor.viewWidth := view.width;
      cursor.viewHeight := view.height;
    }
    cursor.resizeEdges := edges;
    view.requests := view.requests + [Unmaximize];
    events := events + [PointerClearFocus];
    pointerClient := None;
  }

  /** Starts rotating `view` around its centre. */
  method BeginRotate(view: View)
    requires Valid()
    modifies cursor`mode, cursor`offsX, cursor`offsY, cursor`viewRotation, view`requests, this`events, this`pointerClient
    ensures Valid()
    ensures cursor.mode == Rotate && cursor.offsX == cursor.x && cursor.offsY == cursor.y
    ensures cursor.viewRotation == view.rotation
    ensures view.requests == old(view.requests) + [Unmaximize]
    ensures events == old(events) + [PointerClearFocus] && pointerClient.None?
  {
    cursor.mode := Rotate;
    cursor.offsX := cursor.x;
    cursor.offsY := cursor.y;
    cursor.viewRotation := view.rotation;
    view.requests := view.requests + [Unmaximize];
    events := events + [PointerClearFocus];
    pointerClient := None;
  }

  /**
   * Cancels the compositor grab on the focused view: it goes back to the
   * geometry (or rotation) it had when the grab began, and the cursor to
   * passthrough.
   */
  method EndCompositorGrab()
    requires Valid()
    modifies cursor`mode, focusedView
    ensures Valid()
    ensures focusedView == null ==> cursor.mode == old(cursor.mode)
    ensures focusedView != null ==>
      && cursor.mode == Passthrough
      && focusedView.requests == old(focusedView.requests) + (match old(cursor.mode)
          case Move => [MoveTo(cursor.viewX, cursor.viewY)]
          case Resize => [MoveResizeTo(cursor.viewX, cursor.viewY, cursor.viewWidth, cursor.viewHeight)]
          case _ => [])
      && focusedView.rotation == (if old(cursor.mode) == Rotate then cursor.viewRotation else old(focusedView.rotation))
  {
    var view := focusedView;
    if view == null {
      return;
    }
    match cursor.mode {
      case Move =>
        view.requests := view.requests + [MoveTo(cursor.viewX, cursor.viewY)];
      case Resize =>
        view.requests := view.requests + [MoveResizeTo(cursor.viewX, cursor.viewY, cursor.viewWidth, cursor.viewHeight)];
      case Rotate =>
        view.rotation := cursor.viewRotation;
      case Passthrough =>
    }
    cursor.mode := Passthrough;
  }
}
