# tablecloth input and layer-shell core, in Dafny

This project models the core of tablecloth, a Wayland compositor built on
wlroots. It covers four parts:

- **Layer-shell arrangement engine** (`layer_shell.dfy`, module `LayerShell`):
  - the edge table that takes a docked surface's exclusive zone out of an output's usable area (`apply_exclusive`);
  - the placement of each layer surface within its bounds (`arrange_layer`);
  - the two passes over the four stacking layers and the search for the topmost keyboard-interactive surface (`arrange_layers`);
  - the handling of a new layer surface: choosing an output for it, then arranging it as if its pending state were current.
- **The cursor's grab state machine** (`cursor.dfy`, class `Cursor`):
  - passthrough, move, resize and rotate;
  - meta-modifier grabs on a button press;
  - pointer constraints and the warp into a constraint's region;
  - tablet tools that fall back to pointer emulation;
  - touch points that emulate the left and right buttons and arm edge gestures.
- **The seat** (`seat.dfy`, classes `Seat` and `SeatView`):
  - the capabilities it announces and the meta-modifier test;
  - keyboard focus on a view or on a layer surface;
  - the exclusive client (a screen locker), which takes input from every other client;
  - the compositor grabs it starts and cancels;
  - the per-view decoration grab.
- **Clock conversions** (`chrono.dfy`, module `Chrono`): between a system-clock time point and a POSIX `timespec`.

`cint.dfy` writes out the C++ integer semantics the code relies on:
truncating division and remainder, and the `(int)` cast of a `uint32_t`.
`wlr.dfy` holds the wlroots values shared by all parts (`Box`, `Surface`,
client identities). `view.dfy` holds the view as the input code sees it.

Effects on the world are recorded in order rather than performed:

- **Outputs** log configure, close, cursor-update and layer-focus requests.
- **Cursors** log image changes, constraint activations, warps and tablet notifications.
- **Seats** log what they send through the `wlr_seat`.
- **Views** log the move, resize, rotate, maximize and activate requests made of them.

What the desktop answers is a parameter: the surface under a point (`HitTest`), whether a surface takes tablet input, the output under a point and whether a gesture begins.

The cursor and the seat refer to each other, so they live together in the
default module, spread over `view.dfy`, `cursor.dfy` and `seat.dfy`.

Three behaviours of the code that a reader might not expect:

- A button release while a grab is under way only returns the cursor to passthrough (`tablecloth/cursor.cpp:616-618`). It does not call `end_compositor_grab`. The view keeps the geometry the last motion asked for.
- `set_focus` skips deactivating the previous view when the *newly* focused view is an override-redirect Xwayland window (`tablecloth/seat.cpp:535-536`). It does not test the previous view.
- `begin_move`, `begin_resize` and `begin_rotate` do not check that the cursor is in passthrough. `press_button` and `deco_motion` call them in whatever mode the cursor is in.

## Model

| member | source | states |
|---|---|---|
| CInt.TruncDiv | tablecloth/layer_shell.cpp:154 | C++ `/` for a positive divisor: the quotient truncated toward zero, the remainder bounded by the divisor and of the dividend's sign |
| CInt.TruncRem | tablecloth/layer_shell.cpp:154 | C++ `%`: the dividend is quotient times divisor plus this remainder, which has the dividend's sign |
| CInt.TruncDivUnique | tablecloth/layer_shell.cpp:154 | the truncated quotient is the only quotient whose remainder is smaller than the divisor and of the dividend's sign |
| CInt.Int32Of | tablecloth/layer_shell.cpp:142 | the `(int)` cast of a `uint32_t` desired size lands in the int32 range and keeps values up to 2^31-1 |
| CInt.Int32OfIsCongruent | tablecloth/layer_shell.cpp:142 | the cast yields exactly the int32 value congruent to the unsigned one modulo 2^32 |
| Chrono.ToTimespec | common/util/chrono.hpp:18-23 | whole seconds and nanosecond rest together give the time point in nanoseconds truncated toward zero; the seconds are the truncated tick quotient; the rest lies in [0, 10^9) from the epoch on and in (-10^9, 0] before it |
| Chrono.ToTimePoint | common/util/chrono.hpp:25-28 | the tick count has the sign of the timespec's nanosecond total |
| Chrono.RoundTrip | common/util/chrono.hpp:18-28 | converting a time point to a timespec and back gives the same time point whenever the clock's tick is a whole number of nanoseconds |
| Chrono.RoundTripLosesTickWhenTickIsNotWholeNanoseconds | common/util/chrono.hpp:18-28 | with three ticks to the second, tick 1 becomes 333333333 ns and converts back to tick 0 |
| LayerShell.AnchorsOf | tablecloth/layer_shell.cpp:80-111 | each docked-edge triple of the anchor table is set exactly when all three of its bits are in the mask |
| LayerShell.AnchorBits | tablecloth/layer_shell.cpp:80-108 | the anchor mask built from four flags reads back as the same flags and uses only the four anchor bits |
| LayerShell.AnchorBitsRoundTrip | tablecloth/layer_shell.cpp:80-108 | a mask of anchor bits only is rebuilt exactly from the flags read out of it |
| LayerShell.ApplyExclusive | tablecloth/layer_shell.cpp:64-120 | the loop over the four-entry edge table leaves the usable area that the reference definition `ExclusiveArea` describes |
| LayerShell.NoZoneNoReservation | tablecloth/layer_shell.cpp:72-74 | an exclusive zone that is not positive leaves the usable area unchanged |
| LayerShell.DockedEdgesMoveOnlyTheirSide | tablecloth/layer_shell.cpp:110-119 | a surface docked at the top or left moves that edge in by zone plus margin; one docked at the bottom or right moves only the far edge; other edges stay |
| LayerShell.TopBarReservesZoneAndMargin | tablecloth/layer_shell.cpp:81-87 | a bar anchored left, right and top takes zone plus top margin off the top and nothing else |
| LayerShell.PlaceAxisRules | tablecloth/layer_shell.cpp:142-185 | the per-axis placement:<br>- a stretched surface spans the bounds minus both margins;<br>- a surface anchored low sits one margin from the low edge, and one anchored high one margin from the high edge;<br>- an unanchored surface keeps its size and is centred to within one pixel |
| LayerShell.PlaceAxis | tablecloth/layer_shell.cpp:142-185 | one axis of the placement: a surface anchored at the low edge starts one margin in from it; an unanchored one keeps its desired size; one anchored at exactly one edge keeps its desired size, or spans the bounds when it has none (the full rules are `PlaceAxisRules`) |
| LayerShell.ArrangeBox | tablecloth/layer_shell.cpp:142-185 | a surface anchored to both edges of an axis with no desired size spans the bounds minus both margins; an unanchored axis keeps the desired size after the `(int)` cast |
| LayerShell.Selected | tablecloth/layer_shell.cpp:133-135 | the exclusive pass takes exactly the surfaces with a positive zone and the non-exclusive pass the others |
| LayerShell.Bounds | tablecloth/layer_shell.cpp:136-141 | a surface is placed within the usable area, or within the full area only when its zone is -1 |
| LayerShell.Arrange | tablecloth/layer_shell.cpp:133-190 | a surface outside the pass is skipped; one whose box has a negative width or height is closed; otherwise it is placed at its box, of non-negative size |
| LayerShell.PassGeos | tablecloth/layer_shell.cpp:130-206 | after a pass, each surface is placed within the area left by the surfaces handled before it, newest first |
| LayerShell.PassKeepsUnselected | tablecloth/layer_shell.cpp:133-135 | a pass leaves the surfaces whose zone does not match it where they were |
| LayerShell.NonExclusivePassKeepsUsable | tablecloth/layer_shell.cpp:194-195 | the non-exclusive pass never changes the usable area |
| LayerShell.PassEventsIgnoreUnselected | tablecloth/layer_shell.cpp:192-204 | the requests of a pass depend on the previous geometry of the surfaces it places only |
| LayerShell.SettledPassSendsNoCursorUpdate | tablecloth/layer_shell.cpp:202-204 | when every surface already has its arranged geometry, a pass re-synthesises no cursor motion |
| LayerShell.ExclusiveGeos | tablecloth/layer_shell.cpp:213-221 | the exclusive passes run overlay, top, bottom and background, each within what the layers above left |
| LayerShell.NonExclusiveGeos | tablecloth/layer_shell.cpp:228-236 | the non-exclusive passes place every layer within the same usable area |
| LayerShell.FinalGeos | tablecloth/layer_shell.cpp:208-236 | every surface's geometry after a whole arrangement, in closed form per surface |
| LayerShell.BothPassesGiveFinalGeo | tablecloth/layer_shell.cpp:208-236 | the exclusive passes followed by the non-exclusive ones put each surface where the closed form says |
| LayerShell.BothPassesGiveFinalGeos | tablecloth/layer_shell.cpp:208-236 | the same for all surfaces of all layers at once |
| LayerShell.NonExclusiveEventsIgnoreExclusivePass | tablecloth/layer_shell.cpp:213-236 | the non-exclusive passes' requests do not depend on where the exclusive passes put their surfaces |
| LayerShell.ArrangeIsIdempotent | tablecloth/layer_shell.cpp:208-236 | arranging again with unchanged states leaves every surface where the first arrangement put it, and the second arrangement re-synthesises no cursor motion |
| LayerShell.AppendKeepsWellLayered | tablecloth/layer_shell.cpp:294-295 | appending a new surface to its own layer's list keeps every surface in the list of its layer, once |
| LayerShell.Output.ArrangeOne | tablecloth/layer_shell.cpp:131-205 | one surface's turn:<br>- skipped, or closed for a negative extent, or placed and configured;<br>- its zone is taken from the usable area;<br>- cursor motion is re-synthesised only when it moved |
| LayerShell.Output.ArrangeLayer | tablecloth/layer_shell.cpp:122-206 | a pass over one list gives the usable area, geometries and requests of the pass functions |
| LayerShell.Output.FindTopmost | tablecloth/layer_shell.cpp:238-255 | the result is the newest keyboard-interactive overlay surface, else the newest keyboard-interactive top-layer surface, else none |
| LayerShell.Output.ArrangeExclusive | tablecloth/layer_shell.cpp:213-222 | the four exclusive passes give the exclusive geometries, requests and usable area |
| LayerShell.Output.ArrangeNonExclusive | tablecloth/layer_shell.cpp:228-236 | the four non-exclusive passes give the non-exclusive geometries and requests, and keep the recorded usable area |
| LayerShell.Output.FocusTopmost | tablecloth/layer_shell.cpp:238-259 | every seat is asked to focus the topmost keyboard-interactive surface, or none |
| LayerShell.Output.ArrangePasses | tablecloth/layer_shell.cpp:210-236 | both passes with the usable area recorded between them |
| LayerShell.Output.ArrangeLayers | tablecloth/layer_shell.cpp:208-260 | after arranging:<br>- every surface has its closed-form geometry;<br>- the recorded usable area is what the exclusive surfaces left;<br>- the requests are those of both passes, then the layer focus;<br>- layer states are unchanged |
| LayerShell.Output.Emplace | tablecloth/layer_shell.cpp:294-295 | the new surface joins the end of its layer's list, and the other lists stay |
| LayerShell.Output.SetCurrent | tablecloth/layer_shell.cpp:299-300 | replacing the new surface's current state changes only that surface's state in the output's layer states |
| LayerShell.Output.ArrangePending | tablecloth/layer_shell.cpp:297-304 | the output is arranged with the pending state standing in for the current one, which is then restored |
| LayerShell.Output.AddSurface | tablecloth/layer_shell.cpp:291-304 | the new surface is listed last in its layer, and the output is arranged as if the client's pending state were current; the surface's current state is unchanged afterwards |
| LayerShell.FallbackOutput | tablecloth/layer_shell.cpp:273-289 | a requested output is kept; otherwise the output under the cursor, else the centre output; no output at all means the surface is closed |
| LayerShell.ChooseOutput | tablecloth/layer_shell.cpp:273-292 | the surface's output becomes the fallback choice; the compositor output is the matching one, else the first; null exactly when the surface was closed |
| GestureCommand | tablecloth/cursor.cpp:206-216 | each screen edge runs its own command, and no edge runs none |
| SwitchLeavesActive | tablecloth/cursor.cpp:650-657 | deactivating the old constraint and then activating the new one leaves the new one active, whatever non-constraint events follow |
| ResizeAxis | tablecloth/cursor.cpp:531-549 | one axis of a resize:<br>- the size is always at least one;<br>- dragging the near edge keeps the far edge, and past it the view collapses to one pixel just beyond the far edge;<br>- dragging the far edge keeps the position |
| ResizeTarget | tablecloth/cursor.cpp:522-550 | a resize grab always asks for a move-resize of positive width and height |
| GrabEdges | tablecloth/cursor.cpp:594-606 | a meta right-button grab takes exactly one horizontal and one vertical edge: left iff the point is left of the truncated half of the surface's width, top iff above the truncated half of its height (the surface size, not the view geometry) |
| Cursor.SetVisible | tablecloth/cursor.cpp:437-447 | visibility becomes the requested one, and the image changes only when visibility changes |
| Cursor.UpdateFocus | tablecloth/cursor.cpp:504-507 | pointer focus is re-evaluated without an input event (time -1) |
| Cursor.UpdatePosition | tablecloth/cursor.cpp:509-566 | depending on the mode:<br>- passthrough: pointer focus follows the cursor;<br>- move: the view is asked to go to its grab-start position plus the cursor's displacement;<br>- resize: the `ResizeTarget` geometry;<br>- rotate: a rotation;<br>the view's own geometry is untouched |
| Cursor.PressButton | tablecloth/cursor.cpp:568-640 | - pointer buttons are forwarded to the seat, touch buttons are not;<br>- a press with meta held on a view, or a plain press on a view's own surface, makes that view the seat's focused view unless its client is refused input; otherwise the focused view stays;<br>- with meta held, a press on a view starts a move, a resize from `GrabEdges` or a rotation;<br>- otherwise a release returns to passthrough and a press keeps the mode;<br>- a press on a permitted keyboard-interactive layer surface takes the keyboard from the view |
| Cursor.BeginMetaGrab | tablecloth/cursor.cpp:588-610 | the grabbed view becomes the seat's focused view unless its client is refused input, so that later motion acts on it; the left, right and middle buttons start move, resize and rotate grabs at the cursor; other buttons leave the mode |
| Cursor.PlainButton | tablecloth/cursor.cpp:611-638 | a release ends the grab mode; a press keeps it, focuses the view whose surface was hit, and focuses the keyboard-interactive layer surface under the point |
| Cursor.FocusPressed | tablecloth/cursor.cpp:626-636 | the view whose own surface was hit becomes the seat's focused view unless its client is refused input; a permitted keyboard-interactive layer surface then takes the keyboard from the view; the grab mode stays |
| Cursor.Constrain | tablecloth/cursor.cpp:642-679 | - a switch to another constraint deactivates the old one before activating the new one;<br>- a point outside the new region warps the cursor to the middle of its first rectangle;<br>- a confined pointer's area becomes the region, a locked one's becomes empty;<br>- the active constraint stays the last one activated |
| Cursor.HandleTabletToolPosition | tablecloth/cursor.cpp:19-68 | - no changed axis changes nothing;<br>- a puck moves relatively, other tools absolutely on the axes that changed;<br>- the tool is in fallback mode exactly when the surface under it does not take tablet input;<br>- leaving fallback mode cancels any grab;<br>- in fallback mode the focused view is asked to move, resize or rotate as pointer motion would ask it |
| Cursor.MoveTool | tablecloth/cursor.cpp:32-40 | a puck moves the cursor by its deltas; other tools put it at their position on the changed axes only |
| Cursor.ReportTool | tablecloth/cursor.cpp:41-67 | proximity in and motion to a surface that takes tablet input, leaving fallback mode and the grab; otherwise proximity out and pointer motion, with the grab's move, resize or rotate request to the focused view |
| Cursor.TouchDown | tablecloth/cursor.cpp:149-194 | - the cursor image hides;<br>- the first finger with no gesture under way may arm a gesture;<br>- a permitted touch becomes a touch point;<br>- the first and second points record the emulating point and press the left and right button |
| Cursor.ArmGesture | tablecloth/cursor.cpp:162-172 | a gesture is armed only for the first finger, with none under way, over an output |
| Cursor.DeliverTouchDown | tablecloth/cursor.cpp:174-193 | the touch reaches the surface only for a permitted client, and then emulates the button of its count |
| Cursor.EmulateTouchPress | tablecloth/cursor.cpp:180-193 | the touch point becomes the emulating point and presses its button, which with meta held starts a move or a resize |
| Cursor.TouchUp | tablecloth/cursor.cpp:197-238 | - a gesture under way ends, running its command if it was accomplished;<br>- a known point releases the button of its count, ending any grab, and is removed;<br>- an unknown point changes nothing further |
| Cursor.EndGesture | tablecloth/cursor.cpp:202-221 | the gesture is cleared, and only an accomplished one runs its edge's command |
| Cursor.ReleaseTouchPoint | tablecloth/cursor.cpp:223-237 | only a known point releases its emulated button, returning to passthrough, and it is then removed |
| ModifiersAreMeta | tablecloth/seat.cpp:378 | the exclusive-or test of the modifiers against the meta key holds exactly when they are equal |
| Seat.AllowInput | tablecloth/seat.cpp:509-512 | every client may have input while none holds it exclusively; otherwise only the exclusive client may |
| Seat.Refuses | tablecloth/seat.cpp:516-518 | only a view with a surface whose client may not have input is refused; no view is refused while no client holds input exclusively |
| Seat.HasMetaPressed | tablecloth/seat.cpp:370-384 | true exactly when some keyboard with a meta key holds exactly that modifier set |
| RemovePoint | tablecloth/cursor.cpp:237 | removing a touch point that is present drops exactly one point; an absent one changes nothing; no point is invented |
| TouchDownThenUp | tablecloth/cursor.cpp:174-237 | a new touch point that goes up again leaves the other points as they were |
| TouchClears | tablecloth/seat.cpp:645-653 | at most one clearing per touch point, each a touch-focus clearing |
| TouchClearsExactlyOthers | tablecloth/seat.cpp:648-653 | a touch point loses its focus exactly when it belongs to a client other than the exclusive one |
| DecoEdges | tablecloth/seat.cpp:429-439 | the resize edge from the decoration: left before right before bottom before top, and none exactly when no border is hit |
| IndexOfView | tablecloth/seat.cpp:493 | the first seat view of the view, or -1 exactly when there is none |
| DeactivatePrevious | tablecloth/seat.cpp:533-543 | the previous view is deactivated unless it is focused again or the new view is override-redirect |
| SeatView.DecoButton | tablecloth/seat.cpp:467-476 | the decoration grab is armed exactly by a left press, at the pressed point |
| SeatView.DecoMotion | tablecloth/seat.cpp:418-458 | with a grab armed, the titlebar starts a move and a border a resize from `DecoEdges`; the grab is used up either way; without one, nothing changes |
| Seat.UpdateCapabilities | tablecloth/seat.cpp:215-236 | the keyboard bit iff there are keyboards, the pointer bit iff pointers or tablets, the touch bit iff touch devices, no other bit; the cursor image shows iff there is a pointer |
| Seat.SeatViewFromView | tablecloth/seat.cpp:485-498 | the existing seat view for the view, else a fresh one appended; no view gets two |
| Seat.NotifyTouchDown | tablecloth/cursor.cpp:175-178 | a touch point is added with the client of the surface it went down on |
| Seat.NotifyTouchUp | tablecloth/cursor.cpp:237 | the touch point is removed |
| Seat.SetFocus | tablecloth/seat.cpp:514-582 | - a view of a client without input rights is refused with nothing changed;<br>- null clears the keyboard and returns the cursor to passthrough;<br>- a view becomes the seat's view, and is activated and entered unless a layer surface holds the focus;<br>- the previous view is deactivated as `DeactivatePrevious` says |
| Seat.EnterView | tablecloth/seat.cpp:558-580 | the view is activated, keyboard grabs end, the keyboard enters its surface, and pointer focus is re-evaluated |
| Seat.SetFocusLayer | tablecloth/seat.cpp:589-616 | - none gives the focus back to the seat's view;<br>- a surface of a client without input rights is ignored;<br>- otherwise the view loses the keyboard, and only a top or overlay surface keeps the focus |
| Seat.SetExclusiveClient | tablecloth/seat.cpp:618-655 | - afterwards only the exclusive client may have input;<br>- the layer focus, the view focus and the pointer focus are left only on that client;<br>- every other client's touch point loses its focus;<br>- clearing the exclusive client re-arranges all outputs and gives the layer focus as `LayerFocusAfter` says, the keyboard staying on the view only when the last output offers no surface |
| Seat.RefocusTopmost | tablecloth/seat.cpp:620-627 | each output's topmost surface is offered to the seat in turn: the layer focus is `LayerFocusAfter`, and the view keeps the keyboard exactly when the last output offers none |
| LayerFocusAfter | tablecloth/layer_shell.cpp:257-259 | the resulting layer focus is the earlier one or a top or overlay surface some output offered; an output offering none clears it, and a last output offering none leaves no layer focus |
| Seat.ClearOtherTouchFocus | tablecloth/seat.cpp:648-653 | the loop over the touch points sends exactly the clearings of `TouchClears` |
| Seat.BeginMove | tablecloth/seat.cpp:657-673 | move mode from the cursor's position, with the view's position or its saved one when maximized; the view is unmaximized and the pointer focus cleared |
| Seat.BeginResize | tablecloth/seat.cpp:675-698 | resize mode from the given edges, with the view's geometry or its saved one when maximized; the view is unmaximized and the pointer focus cleared |
| Seat.BeginRotate | tablecloth/seat.cpp:700-710 | rotate mode with the view's rotation recorded; the view is unmaximized and the pointer focus cleared |
| Seat.EndCompositorGrab | tablecloth/seat.cpp:712-727 | the focused view goes back to its grab-start position, geometry or rotation, and the cursor to passthrough; without a view nothing changes |

## Left out

- `LayerSurface::update_cursors` and `passthrough_cursor` are recorded as events. Their hit-testing, cursor-image and drag-icon effects are not modelled.
- The rotation angle that a rotate grab computes with `atan2` and rounding (`tablecloth/cursor.cpp:555-562`) is floating point. `Cursor.UpdatePosition` records only that the view is asked to rotate.
- The view's own handling of requests (`move`, `move_resize`, `maximize`, `activate`, `arrange`, damage) is view code that is not part of this model. Requests are recorded in order.
- `view.arrange()` for the visible views in `arrange_layers` is left out for the same reason.
- `Workspace::set_focused_view` lives in workspace code that is not part of this model. It is modelled as the request `FocusInWorkspace` (the workspace's own focus order) followed by `Seat.SetFocus` on the view, as the clicked view is on a shown workspace.
- `Seat.SetExclusiveClient` records the re-arrangement of every output's layers as `ArrangeAllOutputs`, whose geometry side is `LayerShell.Output.ArrangeLayers`; its seat side runs here, with the topmost surface each output's arrangement finds passed in as `topmosts`.
- `LayerShell.Output.ArrangeLayers` records its `set_focus_layer` call for the seats as the request `FocusLayer`; the seat side of that call is `Seat.SetFocusLayer`.
- Cursor coordinates and surface-local points are doubles in the code and integers here. The centre of a constraint's first rectangle is floored where the code keeps the half.
- `Cursor.Constrain` does not model the layout clamp of `wlr_cursor_warp_closest`. The warp lands on the centre point. `wlr_cursor_move` and `wlr_cursor_warp_absolute` are also modelled without the layout clamp.
- `Cursor.MoveTool` takes a tablet tool's absolute position as a layout coordinate. `wlr_cursor_warp_absolute` maps the tool's normalised position onto the layout or the tablet's mapped output; that mapping is wlroots code that is not part of this model.
- `Cursor.Constrain` does not warp when no seat view is under the pointer. The code dereferences the null seat view there.
- The constraint commit listener (`tablecloth/cursor.cpp:649,658`) is left out: it is listener bookkeeping.
- `Seat.SetExclusiveClient` treats a focused view without a surface as belonging to another client. The code dereferences the missing surface there.
- `Cursor.DeliverTouchDown` treats every delivered touch down as having a non-zero serial. wlroots returns zero only for failures that are not modelled.
- `TouchGesture::create` and `TouchGesture::on_touch_up` decide whether a gesture begins and whether it was accomplished. Their thresholds are code that is not part of this model, so they are parameters.
- The clock behind the touch-focus clearing timestamps is left out.
- `Seat.SetFocus` does not model other seats: `Input::view_has_focus` lives in `input.cpp`, which is not part of this model. The previous view counts as focused elsewhere only when it is focused again.
- The input-method relay, the tablet pads, damage and the idle notifications are left out.
- The decoration part bits (`DecoPart`) are defined in a header that is not part of this model. The values used here are one distinct bit per part.
- `SeatView::deco_leave` and the hover cursor images of `deco_motion` and `deco_button` only set cursor images, so they are left out.
- The `begin_*` cursor images are left out for the same reason.
- Touch motion, `request_set_cursor`, device addition and removal, output mappings and drag icons are not part of the core modelled here.
- Destruction handlers and listener bookkeeping are not modelled.
- The `int32_t` fields are unbounded here: no overflow is modelled for sizes, margins or zones. The `(int)` cast of a desired size is modelled.
- Chrono.ToTimePoint: uses unbounded integers. `to_time_point` (`common/util/chrono.hpp:25-28`) sums the seconds and nanoseconds as 64-bit nanoseconds, which overflows for times more than about 292 years from the epoch; the model does not.
- `LayerShell.ChooseOutput` requires at least one compositor output when the surface gets an output. The code takes `outputs.front()` there without checking; a surface that gets none is closed whatever the outputs are.
- `LayerShell.Output.AddSurface` receives the client's pending state at creation as a constant. Later commits are handled by wlroots.
- `Chrono.RoundTrip` requires that the clock's tick divides a second into whole nanoseconds, as the nanosecond and microsecond clocks of the common standard libraries do.
