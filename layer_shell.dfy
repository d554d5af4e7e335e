/**
 * The layer arrangement engine: placement of wlr-layer-shell-unstable-v1
 * surfaces (panels, bars, overlays, backgrounds) on one output.
 *
 * Each output keeps four lists of layer surfaces, one per stacking layer
 * (background, bottom, top, overlay), in insertion order.  Arranging an
 * output walks the layers from overlay down to background twice, newest
 * surface first: the first pass places the surfaces that reserve an exclusive
 * zone and shrinks the output's usable area for each of them, the second
 * places all others.  Protocol requests the engine makes (configure, close,
 * re-synthesised cursor motion, layer keyboard focus for every seat) are
 * recorded, in order, in the output's event log.
 */
module LayerShell {
  import opened CInt
  import opened Wlr

  // zwlr_layer_surface_v1.anchor bits
  const AnchorTop: bv32 := 1
  const AnchorBottom: bv32 := 2
  const AnchorLeft: bv32 := 4
  const AnchorRight: bv32 := 8

  // zwlr_layer_shell_v1.layer values
  const LayerBackground: nat := 0
  const LayerBottom: nat := 1
  const LayerTop: nat := 2
  const LayerOverlay: nat := 3
  const LayerCount: nat := 4

  // The anchor triples that dock a surface to one edge of the output.
  const DockedTopBits: bv32 := AnchorLeft | AnchorRight | AnchorTop
  const DockedBottomBits: bv32 := AnchorLeft | AnchorRight | AnchorBottom
  const DockedLeftBits: bv32 := AnchorLeft | AnchorTop | AnchorBottom
  const DockedRightBits: bv32 := AnchorRight | AnchorTop | AnchorBottom

  /** The anchor bit set of a layer surface, one flag per bit. */
  datatype Anchors = Anchors(top: bool, bottom: bool, left: bool, right: bool) {
    predicate DockedTop() { left && right && top }
    predicate DockedBottom() { left && right && bottom }
    predicate DockedLeft() { left && top && bottom }
    predicate DockedRight() { right && top && bottom }
  }

  /** Reads the four anchor bits of a mask; other bits are ignored. */
  function AnchorsOf(bits: bv32): (a: Anchors)
    ensures a.DockedTop() <==> bits & DockedTopBits == DockedTopBits
    ensures a.DockedBottom() <==> bits & DockedBottomBits == DockedBottomBits
    ensures a.DockedLeft() <==> bits & DockedLeftBits == DockedLeftBits
    ensures a.DockedRight() <==> bits & DockedRightBits == DockedRightBits
  {
    Anchors(bits & AnchorTop != 0, bits & AnchorBottom != 0, bits & AnchorLeft != 0, bits & AnchorRight != 0)
  }

  /** The mask with exactly the given anchor bits set. */
  function AnchorBits(a: Anchors): (bits: bv32)
    ensures AnchorsOf(bits) == a
    ensures bits & 0xF == bits
  {
    (if a.top then AnchorTop else 0) | (if a.bottom then AnchorBottom else 0)
    | (if a.left then AnchorLeft else 0) | (if a.right then AnchorRight else 0)
  }

  /** A mask using only the four defined bits is determined by its anchors. */
  lemma AnchorBitsRoundTrip(bits: bv32)
    requires bits & 0xF == bits
    ensures AnchorBits(AnchorsOf(bits)) == bits
  {
  }

  datatype Margin = Margin(top: int, right: int, bottom: int, left: int)

  /** The committed state of a layer surface (`wlr_layer_surface_v1_state`). */
  datatype LayerState = LayerState(
    anchor: Anchors,
    exclusiveZone: int,
    desiredWidth: UInt32,
    desiredHeight: UInt32,
    margin: Margin,
    keyboardInteractive: bool)

  /** A protocol request made while arranging, or the focus handed to the seats. */
  datatype LayerEvent =
    | Configure(surface: LayerSurface, width: int, height: int)
    | Close(surface: LayerSurface)
    | UpdateCursors(surface: LayerSurface)
    | FocusLayer(target: LayerSurface?)

  /** A placement on one axis: start coordinate and extent. */
  datatype Span = Span(pos: int, size: int)

  /** What one pass does with one surface. */
  datatype Outcome = Skipped | Closed | Placed(box: Box)

  // ---------------------------------------------------------------------
  // Exclusive zones

  /**
   * The usable area left once a surface with the given anchors, exclusive
   * zone and margins has claimed its zone: every anchor triple that is fully
   * set takes `exclusive + margin` from its edge, and a zone that is not
   * positive claims nothing.
   */
  function ExclusiveArea(usable: Box, anchor: Anchors, exclusive: int, margin: Margin): Box {
    if exclusive <= 0 then usable
    else
      var top := if anchor.DockedTop() then exclusive + margin.top else 0;
      var bottom := if anchor.DockedBottom() then exclusive + margin.bottom else 0;
      var left := if anchor.DockedLeft() then exclusive + margin.left else 0;
      var right := if anchor.DockedRight() then exclusive + margin.right else 0;
      Box(usable.x + left, usable.y + top, usable.width - left - right, usable.height - top - bottom)
  }

  /** The field of `wlr_box` that an entry of the edge table points at. */
  datatype Field = X | Y | Width | Height

  /** One row of `apply_exclusive`'s edge table. */
  datatype Edge = Edge(anchors: bv32, positiveAxis: Option<Field>, negativeAxis: Field, margin: int)

  function Bump(b: Box, f: Field, delta: int): (r: Box)
    ensures f == X ==> r == b.(x := b.x + delta)
    ensures f == Y ==> r == b.(y := b.y + delta)
    ensures f == Width ==> r == b.(width := b.width + delta)
    ensures f == Height ==> r == b.(height := b.height + delta)
  {
    match f
    case X => b.(x := b.x + delta)
    case Y => b.(y := b.y + delta)
    case Width => b.(width := b.width + delta)
    case Height => b.(height := b.height + delta)
  }

  /**
   * `apply_exclusive`: walks the four-entry edge table and, for each entry
   * whose anchors are all set, adds `exclusive + margin` to the entry's
   * positive field and subtracts it from its negative field.
   */
  method ApplyExclusive(usable: Box, anchor: bv32, exclusive: int,
                        marginTop: int, marginRight: int, marginBottom: int, marginLeft: int)
    returns (area: Box)
    ensures area == ExclusiveArea(usable, AnchorsOf(anchor), exclusive, Margin(marginTop, marginRight, marginBottom, marginLeft))
  {
    area := usable;
    if exclusive <= 0 {
      return;
    }
    var edges := [
      Edge(DockedTopBits, Some(Y), Height, marginTop),
      Edge(DockedBottomBits, None, Height, marginBottom),
      Edge(DockedLeftBits, Some(X), Width, marginLeft),
      Edge(DockedRightBits, None, Width, marginRight)
    ];
    ghost var top := if anchor & DockedTopBits == DockedTopBits then exclusive + marginTop else 0;
    ghost var bottom := if anchor & DockedBottomBits == DockedBottomBits then exclusive + marginBottom else 0;
    ghost var left := if anchor & DockedLeftBits == DockedLeftBits then exclusive + marginLeft else 0;
    ghost var right := if anchor & DockedRightBits == DockedRightBits then exclusive + marginRight else 0;
    for i := 0 to |edges|
      invariant area.y == usable.y + (if i > 0 then top else 0)
      invariant area.height == usable.height - (if i > 0 then top else 0) - (if i > 1 then bottom else 0)
      invariant area.x == usable.x + (if i > 2 then left else 0)
      invariant area.width == usable.width - (if i > 2 then left else 0) - (if i > 3 then right else 0)
    {
      if anchor & edges[i].anchors == edges[i].anchors {
        if edges[i].positiveAxis.Some? {
          area := Bump(area, edges[i].positiveAxis.value, exclusive + edges[i].margin);
        }
        area := Bump(area, edges[i].negativeAxis, -(exclusive + edges[i].margin));
      }
    }
  }

  /** A zone that is not positive reserves nothing. */
  lemma NoZoneNoReservation(usable: Box, anchor: Anchors, exclusive: int, margin: Margin)
    requires exclusive <= 0
    ensures ExclusiveArea(usable, anchor, exclusive, margin) == usable
  {
  }

  /**
   * Each docked edge moves only its own side of the usable area: docking at
   * the top or left moves the near edge and keeps the far one, docking at the
   * bottom or right only shortens the area.
   */
  lemma DockedEdgesMoveOnlyTheirSide(usable: Box, anchor: Anchors, exclusive: int, margin: Margin)
    requires exclusive > 0
    ensures var r := ExclusiveArea(usable, anchor, exclusive, margin);
      && r.y == usable.y + (if anchor.DockedTop() then exclusive + margin.top else 0)
      && r.y + r.height == usable.y + usable.height - (if anchor.DockedBottom() then exclusive + margin.bottom else 0)
      && r.x == usable.x + (if anchor.DockedLeft() then exclusive + margin.left else 0)
      && r.x + r.width == usable.x + usable.width - (if anchor.DockedRight() then exclusive + margin.right else 0)
  {
  }

  /** A bar anchored exactly to left, right and top reserves its zone plus top margin from the top only. */
  lemma TopBarReservesZoneAndMargin(usable: Box, exclusive: int, margin: Margin)
    requires exclusive > 0
    ensures ExclusiveArea(usable, AnchorsOf(DockedTopBits), exclusive, margin)
         == Box(usable.x, usable.y + exclusive + margin.top, usable.width, usable.height - (exclusive + margin.top))
  {
  }

  // ---------------------------------------------------------------------
  // Placement of one surface

  /**
   * Placement on one axis (horizontal: low = left, high = right; vertical:
   * low = top, high = bottom).  A surface anchored to either edge with no
   * desired size is stretched over the bounds; otherwise it sticks to the
   * low edge, else to the high edge, else it is centred.  Margins then apply
   * from the anchored edges only; with both edges anchored the size loses
   * both margins.
   */
  function PlaceAxis(low: bool, high: bool, desired: int, start: int, extent: int,
                     marginLow: int, marginHigh: int): (r: Span)
    ensures low ==> r.pos == start + marginLow
    ensures !low && !high ==> r.size == desired
    ensures low != high ==> r.size == (if desired == 0 then extent else desired)
  {
    var anchored :=
      if (low || high) && desired == 0 then Span(start, extent)
      else if low then Span(start, desired)
      else if high then Span(start + (extent - desired), desired)
      else Span(start + (TruncDiv(extent, 2) - TruncDiv(desired, 2)), desired);
    if low && high then Span(anchored.pos + marginLow, anchored.size - (marginLow + marginHigh))
    else if low then Span(anchored.pos + marginLow, anchored.size)
    else if high then Span(anchored.pos - marginHigh, anchored.size)
    else anchored
  }

  /**
   * The placement rules: a stretched surface spans the bounds minus its
   * margins; a surface anchored low sits one margin in from the low edge; one
   * anchored high only sits one margin in from the high edge; an unanchored
   * surface keeps its size and is centred, the two gaps differing by at most
   * one because of the truncating halving.
   */
  lemma PlaceAxisRules(low: bool, high: bool, desired: int, start: int, extent: int,
                       marginLow: int, marginHigh: int)
    ensures var s := PlaceAxis(low, high, desired, start, extent, marginLow, marginHigh);
      && (low && high && desired == 0 ==> s.pos == start + marginLow && s.pos + s.size == start + extent - marginHigh)
      && (low && high && desired != 0 ==> s.pos == start + marginLow && s.size == desired - (marginLow + marginHigh))
      && (low && !high ==> s.pos == start + marginLow && s.size == (if desired == 0 then extent else desired))
      && (!low && high && desired != 0 ==> s.size == desired && s.pos + s.size == start + extent - marginHigh)
      && (!low && high && desired == 0 ==> s.size == extent && s.pos == start - marginHigh)
      && (!low && !high ==> s.size == desired)
      && (!low && !high && 0 <= desired && 0 <= extent ==> -1 <= (s.pos - start) - ((start + extent) - (s.pos + s.size)) <= 1)
  {
  }

  /** The box `arrange_layer` computes for a state within the given bounds. */
  function ArrangeBox(st: LayerState, bounds: Box): (b: Box)
    ensures st.anchor.left && st.anchor.right && Int32Of(st.desiredWidth) == 0 ==>
      b.x == bounds.x + st.margin.left && b.width == bounds.width - (st.margin.left + st.margin.right)
    ensures st.anchor.top && st.anchor.bottom && Int32Of(st.desiredHeight) == 0 ==>
      b.y == bounds.y + st.margin.top && b.height == bounds.height - (st.margin.top + st.margin.bottom)
    ensures !st.anchor.left && !st.anchor.right ==> b.width == Int32Of(st.desiredWidth)
    ensures !st.anchor.top && !st.anchor.bottom ==> b.height == Int32Of(st.desiredHeight)
  {
    var horizontal := PlaceAxis(st.anchor.left, st.anchor.right,
                                Int32Of(st.desiredWidth), bounds.x, bounds.width,
                                st.margin.left, st.margin.right);
    var vertical := PlaceAxis(st.anchor.top, st.anchor.bottom,
                              Int32Of(st.desiredHeight), bounds.y, bounds.height,
                              st.margin.top, st.margin.bottom);
    Box(horizontal.pos, vertical.pos, horizontal.size, vertical.size)
  }

  /** A surface takes part in a pass iff its zone being positive matches the pass. */
  predicate Selected(st: LayerState, exclusive: bool)
    ensures Selected(st, exclusive) && exclusive ==> st.exclusiveZone > 0
    ensures Selected(st, exclusive) && !exclusive ==> st.exclusiveZone <= 0
    ensures !Selected(st, exclusive) ==> (st.exclusiveZone > 0 <==> !exclusive)
  {
    exclusive == (st.exclusiveZone > 0)
  }

  /** A zone of -1 asks to ignore other surfaces' reservations. */
  function Bounds(st: LayerState, full: Box, usable: Box): (b: Box)
    ensures b == full || b == usable
    ensures st.exclusiveZone != -1 ==> b == usable
  {
    if st.exclusiveZone == -1 then full else usable
  }

  /** One surface's turn: skipped outside its pass, closed when either extent comes out negative, placed otherwise. */
  function Arrange(st: LayerState, full: Box, usable: Box, exclusive: bool): (o: Outcome)
    ensures o.Skipped? <==> !Selected(st, exclusive)
    ensures o.Closed? <==>
      Selected(st, exclusive)
      && (ArrangeBox(st, Bounds(st, full, usable)).width < 0 || ArrangeBox(st, Bounds(st, full, usable)).height < 0)
    ensures o.Placed? ==> o.box == ArrangeBox(st, Bounds(st, full, usable)) && o.box.width >= 0 && o.box.height >= 0
  {
    if !Selected(st, exclusive) then Skipped
    else
      var box := ArrangeBox(st, Bounds(st, full, usable));
      if box.width < 0 || box.height < 0 then Closed else Placed(box)
  }

  /** The usable area after one surface of a pass. */
  function UsableAfter(st: LayerState, full: Box, usable: Box, exclusive: bool): Box {
    if Arrange(st, full, usable, exclusive).Placed? then
      ExclusiveArea(usable, st.anchor, st.exclusiveZone, st.margin)
    else usable
  }

  /** The geometry a surface has after its turn in a pass. */
  function GeoAfter(st: LayerState, geo: Box, full: Box, usable: Box, exclusive: bool): Box {
    match Arrange(st, full, usable, exclusive)
    case Placed(box) => box
    case _ => geo
  }

  /** The requests one surface's turn makes, given its outcome and previous geometry. */
  function SurfaceEvents(s: LayerSurface, outcome: Outcome, geo: Box): seq<LayerEvent> {
    match outcome
    case Skipped => []
    case Closed => [Close(s)]
    case Placed(box) =>
      [Configure(s, box.width, box.height)]
      + (if box.x != geo.x || box.y != geo.y then [UpdateCursors(s)] else [])
  }

  /**
   * The usable area once the surfaces at index `from` and above have had
   * their turn.  A pass visits the list from its end (newest surface first),
   * so `PassUsable(states, 0, ...)` is the area after the whole pass.
   */
  function PassUsable(states: seq<LayerState>, from: nat, full: Box, usable: Box, exclusive: bool): Box
    requires from <= |states|
    decreases |states| - from
  {
    if from == |states| then usable
    else UsableAfter(states[from], full, PassUsable(states, from + 1, full, usable, exclusive), exclusive)
  }

  /** Where surface `k` is after a pass: it is handled within the area left by the surfaces above it. */
  function PassGeo(states: seq<LayerState>, geos: seq<Box>, k: nat, full: Box, usable: Box, exclusive: bool): Box
    requires k < |states| == |geos|
  {
    GeoAfter(states[k], geos[k], full, PassUsable(states, k + 1, full, usable, exclusive), exclusive)
  }

  /** The geometries of a whole list after a pass. */
  function PassGeos(states: seq<LayerState>, geos: seq<Box>, full: Box, usable: Box, exclusive: bool): (r: seq<Box>)
    requires |states| == |geos|
    ensures |r| == |states|
    ensures forall k :: 0 <= k < |states| ==> r[k] == PassGeo(states, geos, k, full, usable, exclusive)
  {
    seq(|states|, k requires 0 <= k < |states| => PassGeo(states, geos, k, full, usable, exclusive))
  }

  /** The requests made by the turns of the surfaces at `from` and above, in order. */
  function PassEvents(list: seq<LayerSurface>, states: seq<LayerState>, geos: seq<Box>, from: nat,
                      full: Box, usable: Box, exclusive: bool): seq<LayerEvent>
    requires |list| == |states| == |geos| && from <= |list|
    decreases |list| - from
  {
    if from == |list| then []
    else
      PassEvents(list, states, geos, from + 1, full, usable, exclusive)
      + SurfaceEvents(list[from], Arrange(states[from], full, PassUsable(states, from + 1, full, usable, exclusive), exclusive),
                      geos[from])
  }

  lemma ConcatAssoc<T>(a: seq<T>, b: seq<T>, c: seq<T>)
    ensures (a + b) + c == a + (b + c)
  {
  }

  /** A pass leaves the surfaces it does not select where they were. */
  lemma PassKeepsUnselected(states: seq<LayerState>, geos: seq<Box>, full: Box, usable: Box, exclusive: bool)
    requires |states| == |geos|
    ensures forall k :: 0 <= k < |states| && !Selected(states[k], exclusive) ==>
      PassGeos(states, geos, full, usable, exclusive)[k] == geos[k]
  {
  }

  /** The non-exclusive pass never changes the usable area. */
  lemma {:induction false} NonExclusivePassKeepsUsable(states: seq<LayerState>, from: nat, full: Box, usable: Box)
    requires from <= |states|
    ensures PassUsable(states, from, full, usable, false) == usable
    decreases |states| - from
  {
    if from < |states| {
      NonExclusivePassKeepsUsable(states, from + 1, full, usable);
    }
  }

  /** A pass's requests depend on the old geometry of the surfaces it selects only. */
  lemma {:induction false} PassEventsIgnoreUnselected(list: seq<LayerSurface>, states: seq<LayerState>,
                                                     geos: seq<Box>, geos': seq<Box>, from: nat,
                                                     full: Box, usable: Box, exclusive: bool)
    requires |list| == |states| == |geos| == |geos'| && from <= |list|
    requires forall k :: from <= k < |list| && Selected(states[k], exclusive) ==> geos[k] == geos'[k]
    ensures PassEvents(list, states, geos, from, full, usable, exclusive)
         == PassEvents(list, states, geos', from, full, usable, exclusive)
    decreases |list| - from
  {
    if from < |list| {
      PassEventsIgnoreUnselected(list, states, geos, geos', from + 1, full, usable, exclusive);
    }
  }

  /** When every surface already has its arranged geometry, no turn re-synthesises cursor motion. */
  lemma {:induction false} SettledPassSendsNoCursorUpdate(list: seq<LayerSurface>, states: seq<LayerState>,
                                                         geos: seq<Box>, from: nat,
                                                         full: Box, usable: Box, exclusive: bool)
    requires |list| == |states| == |geos| && from <= |list|
    requires forall k :: from <= k < |list| ==> geos[k] == PassGeo(states, geos, k, full, usable, exclusive)
    ensures forall e :: e in PassEvents(list, states, geos, from, full, usable, exclusive) ==> !e.UpdateCursors?
    decreases |list| - from
  {
    if from < |list| {
      SettledPassSendsNoCursorUpdate(list, states, geos, from + 1, full, usable, exclusive);
    }
  }

  // ---------------------------------------------------------------------
  // Whole-output arrangement, as functions of the layer states

  /** The usable area before the exclusive pass over `layer` (passes run overlay first). */
  function UsableBefore(states: seq<seq<LayerState>>, full: Box, layer: nat): Box
    requires |states| == LayerCount && layer < LayerCount
    decreases LayerCount - layer
  {
    if layer == LayerOverlay then full
    else PassUsable(states[layer + 1], 0, full, UsableBefore(states, full, layer + 1), true)
  }

  /** The output's usable area once every exclusive surface has been placed. */
  function ExclusiveUsable(states: seq<seq<LayerState>>, full: Box): Box
    requires |states| == LayerCount
  {
    PassUsable(states[LayerBackground], 0, full, UsableBefore(states, full, LayerBackground), true)
  }

  /** Where surface `i` of `layer` ends up after both passes. */
  function FinalGeo(states: seq<seq<LayerState>>, geo: Box, full: Box, layer: nat, i: nat): Box
    requires |states| == LayerCount && layer < LayerCount && i < |states[layer]|
  {
    var st := states[layer][i];
    if st.exclusiveZone > 0 then
      GeoAfter(st, geo, full, PassUsable(states[layer], i + 1, full, UsableBefore(states, full, layer), true), true)
    else
      GeoAfter(st, geo, full, ExclusiveUsable(states, full), false)
  }

  /** All geometries after the exclusive passes. */
  function ExclusiveGeos(states: seq<seq<LayerState>>, geos: seq<seq<Box>>, full: Box): (r: seq<seq<Box>>)
    requires |states| == |geos| == LayerCount
    requires forall l :: 0 <= l < LayerCount ==> |states[l]| == |geos[l]|
    ensures |r| == LayerCount
    ensures forall l :: 0 <= l < LayerCount ==> r[l] == PassGeos(states[l], geos[l], full, UsableBefore(states, full, l), true)
  {
    geos[LayerOverlay := PassGeos(states[LayerOverlay], geos[LayerOverlay], full, UsableBefore(states, full, LayerOverlay), true)]
        [LayerTop := PassGeos(states[LayerTop], geos[LayerTop], full, UsableBefore(states, full, LayerTop), true)]
        [LayerBottom := PassGeos(states[LayerBottom], geos[LayerBottom], full, UsableBefore(states, full, LayerBottom), true)]
        [LayerBackground := PassGeos(states[LayerBackground], geos[LayerBackground], full,
                                     UsableBefore(states, full, LayerBackground), true)]
  }

  /** The whole arrangement gives every surface the geometry `FinalGeo` describes. */
  lemma BothPassesGiveFinalGeo(states: seq<seq<LayerState>>, geos: seq<seq<Box>>, full: Box, l: nat, k: nat)
    requires |states| == |geos| == LayerCount
    requires forall m :: 0 <= m < LayerCount ==> |states[m]| == |geos[m]|
    requires l < LayerCount && k < |states[l]|
    ensures PassGeos(states[l], ExclusiveGeos(states, geos, full)[l], full, ExclusiveUsable(states, full), false)[k]
         == FinalGeo(states, geos[l][k], full, l, k)
  {
    NonExclusivePassKeepsUsable(states[l], k + 1, full, ExclusiveUsable(states, full));
  }

  /** Every surface's geometry after both passes. */
  function FinalGeos(states: seq<seq<LayerState>>, geos: seq<seq<Box>>, full: Box): (r: seq<seq<Box>>)
    requires |states| == |geos| == LayerCount
    requires forall l :: 0 <= l < LayerCount ==> |states[l]| == |geos[l]|
    ensures |r| == LayerCount
    ensures forall l :: 0 <= l < LayerCount ==> |r[l]| == |geos[l]|
    ensures forall l, k :: 0 <= l < LayerCount && 0 <= k < |geos[l]| ==> r[l][k] == FinalGeo(states, geos[l][k], full, l, k)
  {
    seq(LayerCount, l requires 0 <= l < LayerCount =>
      seq(|geos[l]|, k requires 0 <= k < |geos[l]| => FinalGeo(states, geos[l][k], full, l, k)))
  }

  /** The non-exclusive passes over what the exclusive passes left give the final geometries. */
  lemma BothPassesGiveFinalGeos(states: seq<seq<LayerState>>, geos: seq<seq<Box>>, full: Box)
    requires |states| == |geos| == LayerCount
    requires forall l :: 0 <= l < LayerCount ==> |states[l]| == |geos[l]|
    ensures NonExclusiveGeos(states, ExclusiveGeos(states, geos, full), full, ExclusiveUsable(states, full))
         == FinalGeos(states, geos, full)
  {
    var placed := NonExclusiveGeos(states, ExclusiveGeos(states, geos, full), full, ExclusiveUsable(states, full));
    var expected := FinalGeos(states, geos, full);
    forall l | 0 <= l < LayerCount
      ensures placed[l] == expected[l]
    {
      forall k | 0 <= k < |geos[l]|
        ensures placed[l][k] == expected[l][k]
      {
        BothPassesGiveFinalGeo(states, geos, full, l, k);
      }
    }
  }

  /** Per-layer lists of surfaces, states and geometries of matching shape. */
  predicate Shaped(layers: seq<seq<LayerSurface>>, states: seq<seq<LayerState>>, geos: seq<seq<Box>>) {
    && |layers| == |states| == |geos| == LayerCount
    && forall l :: 0 <= l < LayerCount ==> |layers[l]| == |states[l]| == |geos[l]|
  }

  /** The requests of the exclusive passes, from overlay down to background. */
  function ExclusiveEvents(layers: seq<seq<LayerSurface>>, states: seq<seq<LayerState>>, geos: seq<seq<Box>>,
                           full: Box): seq<LayerEvent>
    requires Shaped(layers, states, geos)
  {
    PassEvents(layers[LayerOverlay], states[LayerOverlay], geos[LayerOverlay], 0, full, UsableBefore(states, full, LayerOverlay), true)
    + PassEvents(layers[LayerTop], states[LayerTop], geos[LayerTop], 0, full, UsableBefore(states, full, LayerTop), true)
    + PassEvents(layers[LayerBottom], states[LayerBottom], geos[LayerBottom], 0, full, UsableBefore(states, full, LayerBottom), true)
    + PassEvents(layers[LayerBackground], states[LayerBackground], geos[LayerBackground], 0, full, UsableBefore(states, full, LayerBackground), true)
  }

  /** The requests of the non-exclusive passes within `usable`, from overlay down to background. */
  function NonExclusiveEvents(layers: seq<seq<LayerSurface>>, states: seq<seq<LayerState>>, geos: seq<seq<Box>>,
                              full: Box, usable: Box): seq<LayerEvent>
    requires Shaped(layers, states, geos)
  {
    PassEvents(layers[LayerOverlay], states[LayerOverlay], geos[LayerOverlay], 0, full, usable, false)
    + PassEvents(layers[LayerTop], states[LayerTop], geos[LayerTop], 0, full, usable, false)
    + PassEvents(layers[LayerBottom], states[LayerBottom], geos[LayerBottom], 0, full, usable, false)
    + PassEvents(layers[LayerBackground], states[LayerBackground], geos[LayerBackground], 0, full, usable, false)
  }

  /** All geometries after the non-exclusive passes within `usable`. */
  function NonExclusiveGeos(states: seq<seq<LayerState>>, geos: seq<seq<Box>>, full: Box, usable: Box): (r: seq<seq<Box>>)
    requires |states| == |geos| == LayerCount
    requires forall l :: 0 <= l < LayerCount ==> |states[l]| == |geos[l]|
    ensures |r| == LayerCount
    ensures forall l :: 0 <= l < LayerCount ==> r[l] == PassGeos(states[l], geos[l], full, usable, false)
  {
    geos[LayerOverlay := PassGeos(states[LayerOverlay], geos[LayerOverlay], full, usable, false)]
        [LayerTop := PassGeos(states[LayerTop], geos[LayerTop], full, usable, false)]
        [LayerBottom := PassGeos(states[LayerBottom], geos[LayerBottom], full, usable, false)]
        [LayerBackground := PassGeos(states[LayerBackground], geos[LayerBackground], full, usable, false)]
  }

  /**
   * The requests of a whole arrangement: the exclusive passes, then the
   * non-exclusive passes within the area the exclusive passes left.
   */
  function ArrangeEvents(layers: seq<seq<LayerSurface>>, states: seq<seq<LayerState>>, geos: seq<seq<Box>>,
                         full: Box): seq<LayerEvent>
    requires Shaped(layers, states, geos)
  {
    ExclusiveEvents(layers, states, geos, full) + NonExclusiveEvents(layers, states, geos, full, ExclusiveUsable(states, full))
  }

  /**
   * The requests of the non-exclusive passes do not depend on where the
   * exclusive passes put their surfaces: the two passes touch disjoint surfaces.
   */
  lemma NonExclusiveEventsIgnoreExclusivePass(layers: seq<seq<LayerSurface>>, states: seq<seq<LayerState>>,
                                              geos: seq<seq<Box>>, full: Box)
    requires Shaped(layers, states, geos)
    ensures NonExclusiveEvents(layers, states, ExclusiveGeos(states, geos, full), full, ExclusiveUsable(states, full))
         == NonExclusiveEvents(layers, states, geos, full, ExclusiveUsable(states, full))
  {
    var excl := ExclusiveGeos(states, geos, full);
    var usable := ExclusiveUsable(states, full);
    forall l | 0 <= l < LayerCount
      ensures PassEvents(layers[l], states[l], excl[l], 0, full, usable, false)
           == PassEvents(layers[l], states[l], geos[l], 0, full, usable, false)
    {
      PassKeepsUnselected(states[l], geos[l], full, UsableBefore(states, full, l), true);
      PassEventsIgnoreUnselected(layers[l], states[l], excl[l], geos[l], 0, full, usable, false);
    }
  }

  /**
   * Arranging twice with unchanged states: the second run places every
   * surface where the first put it, and since nothing moves it
   * re-synthesises no cursor motion.
   */
  lemma ArrangeIsIdempotent(layers: seq<seq<LayerSurface>>, states: seq<seq<LayerState>>,
                            geos: seq<seq<Box>>, full: Box)
    requires Shaped(layers, states, geos)
    ensures FinalGeos(states, FinalGeos(states, geos, full), full) == FinalGeos(states, geos, full)
    ensures forall e :: e in ArrangeEvents(layers, states, FinalGeos(states, geos, full), full) ==> !e.UpdateCursors?
  {
    var settled := FinalGeos(states, geos, full);
    var usable := ExclusiveUsable(states, full);
    forall l | 0 <= l < LayerCount
      ensures forall e :: e in PassEvents(layers[l], states[l], settled[l], 0, full, UsableBefore(states, full, l), true)
                ==> !e.UpdateCursors?
      ensures forall e :: e in PassEvents(layers[l], states[l], settled[l], 0, full, usable, false) ==> !e.UpdateCursors?
      ensures FinalGeos(states, settled, full)[l] == settled[l]
    {
      forall k | 0 <= k < |states[l]|
        ensures FinalGeos(states, settled, full)[l][k] == settled[l][k]
        ensures settled[l][k] == PassGeo(states[l], settled[l], k, full, UsableBefore(states, full, l), true)
        ensures settled[l][k] == PassGeo(states[l], settled[l], k, full, usable, false)
      {
        NonExclusivePassKeepsUsable(states[l], k + 1, full, usable);
      }
      SettledPassSendsNoCursorUpdate(layers[l], states[l], settled[l], 0, full, UsableBefore(states, full, l), true);
      SettledPassSendsNoCursorUpdate(layers[l], states[l], settled[l], 0, full, usable, false);
    }
  }

  // ---------------------------------------------------------------------
  // Surfaces and outputs

  /** A layer surface and the compositor's record of where it is placed. */
  class LayerSurface {
    /** The stacking layer the client asked for. */
    const layer: nat
    /** The underlying `wlr_surface`. */
    const surface: Surface
    /** The committed state. */
    var current: LayerState
    /**
     * The state the client asked for before its first commit; later requests
     * are handled by wlroots and are not part of this model.
     */
    const pending: LayerState
    var geo: Box
    /** The output the client asked for, or that was chosen for it. */
    var output: Output?

    constructor (layer: nat, surface: Surface, current: LayerState, pending: LayerState, output: Output?)
      ensures this.layer == layer && this.surface == surface && this.pending == pending
      ensures this.current == current && this.output == output && geo == Box(0, 0, 0, 0)
    {
      this.layer := layer;
      this.surface := surface;
      this.pending := pending;
      this.current := current;
      this.output := output;
      this.geo := Box(0, 0, 0, 0);
    }
  }

  /** The per-layer values `values` with `x` appended to layer `layer`. */
  function Staged<T>(values: seq<seq<T>>, layer: nat, x: T): seq<seq<T>>
    requires layer < |values|
  {
    values[layer := values[layer] + [x]]
  }

  /** `Staged` is the only way to append `x` to one layer and keep the others. */
  lemma StagedPointwise<T>(r: seq<seq<T>>, values: seq<seq<T>>, layer: nat, x: T)
    requires |r| == |values| && layer < |values| && r[layer] == values[layer] + [x]
    requires forall m :: 0 <= m < |values| && m != layer ==> r[m] == values[m]
    ensures r == Staged(values, layer, x)
  {
  }

  /** Appending the same value to one layer of two per-layer sequences keeps them apart. */
  lemma StagedCancel<T>(a: seq<seq<T>>, b: seq<seq<T>>, layer: nat, x: T)
    requires |a| == |b| && layer < |a| && Staged(a, layer, x) == Staged(b, layer, x)
    ensures a == b
  {
    assert a[layer] == Staged(a, layer, x)[layer][..|a[layer]|];
    assert b[layer] == Staged(b, layer, x)[layer][..|b[layer]|];
    assert forall m :: 0 <= m < |a| ==> a[m] == b[m] by {
      forall m | 0 <= m < |a| ensures a[m] == b[m] {
        if m != layer {
          assert a[m] == Staged(a, layer, x)[m];
        }
      }
    }
  }

  ghost predicate Distinct(list: seq<LayerSurface>) {
    forall i, j :: 0 <= i < j < |list| ==> list[i] != list[j]
  }

  ghost function StatesOf(list: seq<LayerSurface>): (r: seq<LayerState>)
    reads list`current
    ensures |r| == |list| && forall i :: 0 <= i < |list| ==> r[i] == list[i].current
  {
    if list == [] then [] else [list[0].current] + StatesOf(list[1..])
  }

  ghost function GeosOf(list: seq<LayerSurface>): (r: seq<Box>)
    reads list`geo
    ensures |r| == |list| && forall i :: 0 <= i < |list| ==> r[i] == list[i].geo
  {
    if list == [] then [] else [list[0].geo] + GeosOf(list[1..])
  }

  /** `StatesOf` of each of the four per-layer lists. */
  ghost function StatesOfLayers(lists: seq<seq<LayerSurface>>): (r: seq<seq<LayerState>>)
    requires |lists| == LayerCount
    reads lists[LayerBackground]`current, lists[LayerBottom]`current, lists[LayerTop]`current, lists[LayerOverlay]`current
    ensures |r| == LayerCount && forall l :: 0 <= l < LayerCount ==> r[l] == StatesOf(lists[l])
  {
    assert forall l {:trigger lists[l]} :: 0 <= l < LayerCount ==> l == 0 || l == 1 || l == 2 || l == 3;
    [StatesOf(lists[0]), StatesOf(lists[1]), StatesOf(lists[2]), StatesOf(lists[3])]
  }

  /** The geometries of a list are determined surface by surface. */
  lemma GeosOfPointwise(list: seq<LayerSurface>, expected: seq<Box>)
    requires |expected| == |list| && forall k :: 0 <= k < |list| ==> list[k].geo == expected[k]
    ensures GeosOf(list) == expected
  {
    var placed := GeosOf(list);
    assert forall k :: 0 <= k < |list| ==> placed[k] == expected[k];
  }

  /**
   * Four lists, one per layer; every surface sits in the list of its own
   * layer, once, so no surface is listed twice on an output.
   */
  ghost predicate WellLayered(lists: seq<seq<LayerSurface>>) {
    && |lists| == LayerCount
    && (forall l, i :: 0 <= l < LayerCount && 0 <= i < |lists[l]| ==> lists[l][i].layer == l)
    && (forall l :: 0 <= l < LayerCount ==> Distinct(lists[l]))
  }

  /** A new surface appended to the list of its own layer keeps the lists well layered. */
  lemma AppendKeepsWellLayered(lists: seq<seq<LayerSurface>>, x: LayerSurface)
    requires WellLayered(lists) && x.layer < LayerCount && x !in lists[x.layer]
    ensures WellLayered(lists[x.layer := lists[x.layer] + [x]])
  {
  }

  /** The states of a list are determined surface by surface. */
  lemma StatesOfPointwise(list: seq<LayerSurface>, expected: seq<LayerState>)
    requires |expected| == |list| && forall k :: 0 <= k < |list| ==> list[k].current == expected[k]
    ensures StatesOf(list) == expected
  {
    var states := StatesOf(list);
    assert forall k :: 0 <= k < |list| ==> states[k] == expected[k];
  }

  /** `GeosOf` of each of the four per-layer lists. */
  ghost function GeosOfLayers(lists: seq<seq<LayerSurface>>): (r: seq<seq<Box>>)
    requires |lists| == LayerCount
    reads lists[LayerBackground]`geo, lists[LayerBottom]`geo, lists[LayerTop]`geo, lists[LayerOverlay]`geo
    ensures |r| == LayerCount && forall l :: 0 <= l < LayerCount ==> r[l] == GeosOf(lists[l])
  {
    assert forall l {:trigger lists[l]} :: 0 <= l < LayerCount ==> l == 0 || l == 1 || l == 2 || l == 3;
    [GeosOf(lists[0]), GeosOf(lists[1]), GeosOf(lists[2]), GeosOf(lists[3])]
  }

  lemma StatesOfAppend(list: seq<LayerSurface>, x: LayerSurface)
    ensures StatesOf(list + [x]) == StatesOf(list) + [x.current]
  {
    StatesOfPointwise(list + [x], StatesOf(list) + [x.current]);
  }

  lemma GeosOfAppend(list: seq<LayerSurface>, x: LayerSurface)
    ensures GeosOf(list + [x]) == GeosOf(list) + [x.geo]
  {
    GeosOfPointwise(list + [x], GeosOf(list) + [x.geo]);
  }

  ghost predicate NoneInteractive(list: seq<LayerSurface>)
    reads list`current
  {
    forall k :: 0 <= k < |list| ==> !list[k].current.keyboardInteractive
  }

  /** `t` is the newest keyboard-interactive surface of `list`. */
  ghost predicate NewestInteractive(list: seq<LayerSurface>, t: LayerSurface)
    reads list`current
  {
    exists j :: 0 <= j < |list| && list[j] == t && t.current.keyboardInteractive
      && forall k :: j < k < |list| ==> !list[k].current.keyboardInteractive
  }

  class Output {
    /** The output's effective resolution. */
    const width: int
    const height: int
    /** One list per stacking layer, indexed by layer value, in insertion order. */
    var layers: seq<seq<LayerSurface>>
    var usableArea: Box
    var events: seq<LayerEvent>

    constructor (width: int, height: int)
      ensures Valid() && this.width == width && this.height == height
      ensures layers == [[], [], [], []] && events == [] && usableArea == FullArea()
    {
      this.width := width;
      this.height := height;
      layers := [[], [], [], []];
      usableArea := Box(0, 0, width, height);
      events := [];
    }

    function FullArea(): Box {
      Box(0, 0, width, height)
    }

    /**
     * Four layers; every surface sits in the list of its own layer, once, so
     * no surface is listed twice on the output.
     */
    ghost predicate Valid()
      reads this`layers
    {
      WellLayered(layers)
    }

    ghost function LayerStates(): (r: seq<seq<LayerState>>)
      requires Valid()
      reads this`layers, layers[LayerBackground]`current, layers[LayerBottom]`current, layers[LayerTop]`current,
            layers[LayerOverlay]`current
      ensures |r| == LayerCount && forall l :: 0 <= l < LayerCount ==> r[l] == StatesOf(layers[l])
    {
      StatesOfLayers(layers)
    }

    ghost function LayerGeos(): (r: seq<seq<Box>>)
      requires Valid()
      reads this`layers, layers[LayerBackground]`geo, layers[LayerBottom]`geo, layers[LayerTop]`geo,
            layers[LayerOverlay]`geo
      ensures |r| == LayerCount && forall l :: 0 <= l < LayerCount ==> r[l] == GeosOf(layers[l])
    {
      GeosOfLayers(layers)
    }

    /** `t` is the surface `arrange_layers` hands keyboard focus to. */
    ghost predicate IsTopmost(t: LayerSurface?)
      requires Valid()
      reads this`layers, layers[LayerBackground]`current, layers[LayerBottom]`current, layers[LayerTop]`current,
            layers[LayerOverlay]`current
    {
      if t == null then
        NoneInteractive(layers[LayerOverlay]) && NoneInteractive(layers[LayerTop])
      else
        (|| NewestInteractive(layers[LayerOverlay], t)
         || (NoneInteractive(layers[LayerOverlay]) && NewestInteractive(layers[LayerTop], t)))
    }

    /**
     * One surface's turn in a pass of `arrange_layer`: skipped when its zone
     * does not match the pass, closed when the computed box has a negative
     * extent, otherwise placed, configured, and its exclusive zone taken from
     * the usable area.  Cursor motion is re-synthesised only when the surface
     * moved.
     */
    method ArrangeOne(surface: LayerSurface, usable: Box, exclusive: bool, ghost st: LayerState, ghost geo: Box)
      returns (area: Box)
      requires surface.current == st && surface.geo == geo
      modifies this`events, surface`geo
      ensures area == UsableAfter(st, FullArea(), usable, exclusive)
      ensures surface.geo == GeoAfter(st, geo, FullArea(), usable, exclusive)
      ensures events == old(events) + SurfaceEvents(surface, Arrange(st, FullArea(), usable, exclusive), geo)
    {
      area := usable;
      var state := surface.current;
      if exclusive != (state.exclusiveZone > 0) {
        return;
      }
      var bounds := if state.exclusiveZone == -1 then FullArea() else usable;
      var box := ArrangeBox(state, bounds);
      if box.width < 0 || box.height < 0 {
        events := events + [Close(surface)];
        return;
      }
      var oldGeo := surface.geo;
      surface.geo := box;
      area := ApplyExclusive(area, AnchorBits(state.anchor), state.exclusiveZone, state.margin.top,
                             state.margin.right, state.margin.bottom, state.margin.left);
      events := events + [Configure(surface, box.width, box.height)];
      if surface.geo.x != oldGeo.x || surface.geo.y != oldGeo.y {
        events := events + [UpdateCursors(surface)];
      }
    }

    /**
     * `arrange_layer`: one pass over one list, newest surface first, threading
     * the usable area through the surfaces it places.
     */
    method ArrangeLayer(list: seq<LayerSurface>, usable: Box, exclusive: bool,
                        ghost states: seq<LayerState>, ghost geos: seq<Box>) returns (area: Box)
      requires Distinct(list) && |states| == |list| && |geos| == |list|
      requires forall j :: 0 <= j < |list| ==> list[j].current == states[j] && list[j].geo == geos[j]
      modifies this`events, list`geo
      ensures area == PassUsable(states, 0, FullArea(), usable, exclusive)
      ensures GeosOf(list) == PassGeos(states, geos, FullArea(), usable, exclusive)
      ensures events == old(events) + PassEvents(list, states, geos, 0, FullArea(), usable, exclusive)
    {
      area := usable;
      var i := |list|;
      while i > 0
        invariant 0 <= i <= |list|
        invariant area == PassUsable(states, i, FullArea(), usable, exclusive)
        invariant forall j :: 0 <= j < i ==> list[j].geo == geos[j]
        invariant forall j :: i <= j < |list| ==> list[j].geo == PassGeo(states, geos, j, FullArea(), usable, exclusive)
        invariant events == old(events) + PassEvents(list, states, geos, i, FullArea(), usable, exclusive)
      {
        i := i - 1;
        ConcatAssoc(old(events), PassEvents(list, states, geos, i + 1, FullArea(), usable, exclusive),
                    SurfaceEvents(list[i], Arrange(states[i], FullArea(), area, exclusive), geos[i]));
        area := ArrangeOne(list[i], area, exclusive, states[i], geos[i]);
      }
      GeosOfPointwise(list, PassGeos(states, geos, FullArea(), usable, exclusive));
    }

    /** A pass over one layer leaves the states, and the geometries of the other layers, as they were. */
    twostate lemma OnlyLayerMoved(layer: nat)
      requires old(Valid()) && layer < LayerCount && unchanged(this`layers)
      requires forall m, k :: 0 <= m < LayerCount && 0 <= k < |layers[m]| ==> layers[m][k].current == old(layers[m][k].current)
      requires forall m, k :: 0 <= m < LayerCount && m != layer && 0 <= k < |layers[m]| ==> layers[m][k].geo == old(layers[m][k].geo)
      ensures Valid() && LayerStates() == old(LayerStates())
      ensures LayerGeos() == old(LayerGeos())[layer := GeosOf(layers[layer])]
    {
      forall m | 0 <= m < LayerCount
        ensures StatesOf(layers[m]) == old(StatesOf(layers[m]))
      {
      }
      forall m | 0 <= m < LayerCount && m != layer
        ensures GeosOf(layers[m]) == old(GeosOf(layers[m]))
      {
        assert forall k :: 0 <= k < |layers[m]| ==> layers[m][k] !in layers[layer];
      }
    }

    /**
     * `arrange_layer` applied to the list of one of the output's layers;
     * `states` and `geos` name the output's layer states and geometries beforehand.
     */
    method ArrangeOutputLayer(layer: nat, usable: Box, exclusive: bool,
                              ghost states: seq<seq<LayerState>>, ghost geos: seq<seq<Box>>) returns (area: Box)
      requires Valid() && layer < LayerCount && LayerStates() == states && LayerGeos() == geos
      modifies this`events, layers[layer]`geo
      ensures Valid() && LayerStates() == states && usableArea == old(usableArea)
      ensures area == PassUsable(states[layer], 0, FullArea(), usable, exclusive)
      ensures LayerGeos() == geos[layer := PassGeos(states[layer], geos[layer], FullArea(), usable, exclusive)]
      ensures events == old(events) + PassEvents(layers[layer], states[layer], geos[layer], 0, FullArea(), usable, exclusive)
    {
      area := ArrangeLayer(layers[layer], usable, exclusive, states[layer], geos[layer]);
      OnlyLayerMoved(layer);
    }

    /**
     * The search for the topmost keyboard-interactive surface: overlay, then
     * top, newest first, stopping at the first hit.
     */
    method FindTopmost() returns (topmost: LayerSurface?)
      requires Valid()
      ensures IsTopmost(topmost)
    {
      var layersAboveShell := [LayerOverlay, LayerTop];
      topmost := null;
      var k := 0;
      while k < |layersAboveShell|
        invariant 0 <= k <= |layersAboveShell|
        invariant topmost == null
        invariant forall m :: 0 <= m < k ==> NoneInteractive(layers[layersAboveShell[m]])
      {
        var list := layers[layersAboveShell[k]];
        var j := |list|;
        while j > 0
          invariant 0 <= j <= |list|
          invariant topmost == null
          invariant forall t :: j <= t < |list| ==> !list[t].current.keyboardInteractive
        {
          j := j - 1;
          if list[j].current.keyboardInteractive {
            topmost := list[j];
            assert NewestInteractive(list, topmost);
            break;
          }
        }
        if topmost != null {
          if k == 0 {
            assert NewestInteractive(layers[LayerOverlay], topmost);
          } else {
            assert NoneInteractive(layers[layersAboveShell[0]]);
            assert NewestInteractive(layers[LayerTop], topmost);
          }
          break;
        }
        assert NoneInteractive(list);
        k := k + 1;
      }
      if topmost == null {
        assert NoneInteractive(layers[layersAboveShell[0]]) && NoneInteractive(layers[layersAboveShell[1]]);
      }
    }

    /** The area left to views once the exclusive surfaces are placed. */
    method RecordUsableArea(area: Box, ghost states: seq<seq<LayerState>>, ghost geos: seq<seq<Box>>)
      requires Valid() && LayerStates() == states && LayerGeos() == geos
      modifies this`usableArea
      ensures Valid() && LayerStates() == states && LayerGeos() == geos
      ensures usableArea == area
    {
      usableArea := area;
    }

    /**
     * The exclusive half of `arrange_layers`: overlay, top, bottom, background,
     * each within what the layers above left.
     */
    method ArrangeExclusive(ghost states: seq<seq<LayerState>>, ghost geos: seq<seq<Box>>) returns (area: Box)
      requires Valid() && LayerStates() == states && LayerGeos() == geos
      modifies this`events, layers[LayerBackground]`geo, layers[LayerBottom]`geo,
               layers[LayerTop]`geo, layers[LayerOverlay]`geo
      ensures Valid() && LayerStates() == states
      ensures area == ExclusiveUsable(states, FullArea())
      ensures LayerGeos() == ExclusiveGeos(states, geos, FullArea())
      ensures events == old(events) + ExclusiveEvents(layers, states, geos, FullArea())
    {
      ghost var full := FullArea();
      ghost var placed := geos;
      area := FullArea();
      area := ArrangeOutputLayer(LayerOverlay, area, true, states, placed);
      placed := placed[LayerOverlay := PassGeos(states[LayerOverlay], geos[LayerOverlay], full, UsableBefore(states, full, LayerOverlay), true)];
      ghost var log := PassEvents(layers[LayerOverlay], states[LayerOverlay], geos[LayerOverlay], 0, full, UsableBefore(states, full, LayerOverlay), true);
      ConcatAssoc(old(events), log, PassEvents(layers[LayerTop], states[LayerTop], geos[LayerTop], 0, full, UsableBefore(states, full, LayerTop), true));
      area := ArrangeOutputLayer(LayerTop, area, true, states, placed);
      placed := placed[LayerTop := PassGeos(states[LayerTop], geos[LayerTop], full, UsableBefore(states, full, LayerTop), true)];
      log := log + PassEvents(layers[LayerTop], states[LayerTop], geos[LayerTop], 0, full, UsableBefore(states, full, LayerTop), true);
      ConcatAssoc(old(events), log, PassEvents(layers[LayerBottom], states[LayerBottom], geos[LayerBottom], 0, full, UsableBefore(states, full, LayerBottom), true));
      area := ArrangeOutputLayer(LayerBottom, area, true, states, placed);
      placed := placed[LayerBottom := PassGeos(states[LayerBottom], geos[LayerBottom], full, UsableBefore(states, full, LayerBottom), true)];
      log := log + PassEvents(layers[LayerBottom], states[LayerBottom], geos[LayerBottom], 0, full, UsableBefore(states, full, LayerBottom), true);
      ConcatAssoc(old(events), log, PassEvents(layers[LayerBackground], states[LayerBackground], geos[LayerBackground], 0, full, UsableBefore(states, full, LayerBackground), true));
      area := ArrangeOutputLayer(LayerBackground, area, true, states, placed);
      placed := placed[LayerBackground := PassGeos(states[LayerBackground], geos[LayerBackground], full, UsableBefore(states, full, LayerBackground), true)];
      log := log + PassEvents(layers[LayerBackground], states[LayerBackground], geos[LayerBackground], 0, full, UsableBefore(states, full, LayerBackground), true);
    }

    /** The non-exclusive half of `arrange_layers`: every layer within the same `usable` area. */
    method ArrangeNonExclusive(usable: Box, ghost states: seq<seq<LayerState>>, ghost geos: seq<seq<Box>>)
      requires Valid() && LayerStates() == states && LayerGeos() == geos
      modifies this`events, layers[LayerBackground]`geo, layers[LayerBottom]`geo,
               layers[LayerTop]`geo, layers[LayerOverlay]`geo
      ensures Valid() && LayerStates() == states && usableArea == old(usableArea)
      ensures LayerGeos() == NonExclusiveGeos(states, geos, FullArea(), usable)
      ensures events == old(events) + NonExclusiveEvents(layers, states, geos, FullArea(), usable)
    {
      ghost var full := FullArea();
      ghost var placed := geos;
      var area := usable;
      area := ArrangeOutputLayer(LayerOverlay, area, false, states, placed);
      placed := placed[LayerOverlay := PassGeos(states[LayerOverlay], geos[LayerOverlay], full, usable, false)];
      ghost var log := PassEvents(layers[LayerOverlay], states[LayerOverlay], geos[LayerOverlay], 0, full, usable, false);
      NonExclusivePassKeepsUsable(states[LayerOverlay], 0, full, usable);
      ConcatAssoc(old(events), log, PassEvents(layers[LayerTop], states[LayerTop], geos[LayerTop], 0, full, usable, false));
      area := ArrangeOutputLayer(LayerTop, area, false, states, placed);
      placed := placed[LayerTop := PassGeos(states[LayerTop], geos[LayerTop], full, usable, false)];
      log := log + PassEvents(layers[LayerTop], states[LayerTop], geos[LayerTop], 0, full, usable, false);
      NonExclusivePassKeepsUsable(states[LayerTop], 0, full, usable);
      ConcatAssoc(old(events), log, PassEvents(layers[LayerBottom], states[LayerBottom], geos[LayerBottom], 0, full, usable, false));
      area := ArrangeOutputLayer(LayerBottom, area, false, states, placed);
      placed := placed[LayerBottom := PassGeos(states[LayerBottom], geos[LayerBottom], full, usable, false)];
      log := log + PassEvents(layers[LayerBottom], states[LayerBottom], geos[LayerBottom], 0, full, usable, false);
      NonExclusivePassKeepsUsable(states[LayerBottom], 0, full, usable);
      ConcatAssoc(old(events), log, PassEvents(layers[LayerBackground], states[LayerBackground], geos[LayerBackground], 0, full, usable, false));
      area := ArrangeOutputLayer(LayerBackground, area, false, states, placed);
      placed := placed[LayerBackground := PassGeos(states[LayerBackground], geos[LayerBackground], full, usable, false)];
      log := log + PassEvents(layers[LayerBackground], states[LayerBackground], geos[LayerBackground], 0, full, usable, false);
    }

    /**
     * The end of `arrange_layers`: the topmost keyboard-interactive surface
     * is found, and every seat is told that it should have layer focus.
     */
    method FocusTopmost(ghost states: seq<seq<LayerState>>, ghost geos: seq<seq<Box>>) returns (topmost: LayerSurface?)
      requires Valid() && LayerStates() == states && LayerGeos() == geos
      modifies this`events
      ensures Valid() && LayerStates() == states && LayerGeos() == geos && usableArea == old(usableArea)
      ensures IsTopmost(topmost)
      ensures events == old(events) + [FocusLayer(topmost)]
    {
      topmost := FindTopmost();
      events := events + [FocusLayer(topmost)];
    }

    /**
     * `arrange_layers`: the exclusive passes from the top layer down,
     * recording the usable area they leave, then the non-exclusive passes, then
     * the layer keyboard focus for the seats.
     */
    method ArrangeLayers() returns (topmost: LayerSurface?)
      requires Valid()
      modifies this`events, this`usableArea, layers[LayerBackground]`geo, layers[LayerBottom]`geo,
               layers[LayerTop]`geo, layers[LayerOverlay]`geo
      ensures Valid() && LayerStates() == old(LayerStates())
      ensures usableArea == ExclusiveUsable(old(LayerStates()), FullArea())
      ensures LayerGeos() == FinalGeos(old(LayerStates()), old(LayerGeos()), FullArea())
      ensures IsTopmost(topmost)
      ensures events == old(events) + ArrangeEvents(layers, old(LayerStates()), old(LayerGeos()), FullArea())
                        + [FocusLayer(topmost)]
    {
      ghost var states := LayerStates();
      ghost var geos := LayerGeos();
      ArrangePasses(states, geos);
      topmost := FocusTopmost(states, FinalGeos(states, geos, FullArea()));
    }

    /**
     * The two passes of `arrange_layers`, exclusive then non-exclusive, and
     * the usable area recorded between them.
     */
    method ArrangePasses(ghost states: seq<seq<LayerState>>, ghost geos: seq<seq<Box>>)
      requires Valid() && LayerStates() == states && LayerGeos() == geos
      modifies this`events, this`usableArea, layers[LayerBackground]`geo, layers[LayerBottom]`geo,
               layers[LayerTop]`geo, layers[LayerOverlay]`geo
      ensures Valid() && LayerStates() == states
      ensures usableArea == ExclusiveUsable(states, FullArea())
      ensures LayerGeos() == FinalGeos(states, geos, FullArea())
      ensures events == old(events) + ArrangeEvents(layers, states, geos, FullArea())
    {
      ghost var full := FullArea();
      var area := ArrangeExclusive(states, geos);
      ghost var exclusiveGeos := ExclusiveGeos(states, geos, full);
      RecordUsableArea(area, states, exclusiveGeos);
      ArrangeNonExclusive(area, states, exclusiveGeos);
      BothPassesGiveFinalGeos(states, geos, full);
      NonExclusiveEventsIgnoreExclusivePass(layers, states, geos, full);
      ConcatAssoc(old(events), ExclusiveEvents(layers, states, geos, full),
                  NonExclusiveEvents(layers, states, geos, full, area));
    }

    /** `emplace_back`: the surface joins the end of its layer's list. */
    method Emplace(surface: LayerSurface, ghost states: seq<seq<LayerState>>, ghost geos: seq<seq<Box>>)
      requires Valid() && surface.layer < LayerCount && LayerStates() == states && LayerGeos() == geos
      requires surface !in layers[surface.layer]
      modifies this`layers
      ensures Valid() && layers == old(layers)[surface.layer := old(layers[surface.layer]) + [surface]]
      ensures LayerStates() == Staged(states, surface.layer, surface.current)
      ensures LayerGeos() == Staged(geos, surface.layer, surface.geo)
    {
      ghost var lists := layers[surface.layer := layers[surface.layer] + [surface]];
      AppendKeepsWellLayered(layers, surface);
      StatesOfAppend(layers[surface.layer], surface);
      GeosOfAppend(layers[surface.layer], surface);
      StagedPointwise(StatesOfLayers(lists), states, surface.layer, surface.current);
      StagedPointwise(GeosOfLayers(lists), geos, surface.layer, surface.geo);
      layers := layers[surface.layer := layers[surface.layer] + [surface]];
    }

    /** The write of a current state, which no list of `others` can see. */
    static method WriteCurrent(surface: LayerSurface, state: LayerState, ghost others: seq<seq<LayerSurface>>)
      requires |others| == LayerCount && forall m :: 0 <= m < LayerCount ==> surface !in others[m]
      modifies surface`current
      ensures surface.current == state && StatesOfLayers(others) == old(StatesOfLayers(others))
    {
      surface.current := state;
    }

    /** The new surface, last of its layer's list, takes `state` as its current state. */
    method SetCurrent(surface: LayerSurface, state: LayerState, ghost prev: seq<LayerSurface>,
                      ghost states: seq<seq<LayerState>>, ghost geos: seq<seq<Box>>)
      requires Valid() && surface.layer < LayerCount && |states| == LayerCount
      requires layers[surface.layer] == prev + [surface] && surface !in prev
      requires forall m :: 0 <= m < LayerCount && m != surface.layer ==> surface !in layers[m]
      requires LayerStates() == Staged(states, surface.layer, surface.current) && LayerGeos() == geos
      modifies surface`current
      ensures Valid() && surface.current == state && usableArea == old(usableArea) && events == old(events)
      ensures LayerStates() == Staged(states, surface.layer, state) && LayerGeos() == geos
    {
      ghost var others := layers[surface.layer := prev];
      StatesOfAppend(prev, surface);
      StagedPointwise(StatesOfLayers(layers), StatesOfLayers(others), surface.layer, surface.current);
      StagedCancel(StatesOfLayers(others), states, surface.layer, surface.current);
      WriteCurrent(surface, state, others);
      StatesOfAppend(prev, surface);
      StagedPointwise(StatesOfLayers(layers), StatesOfLayers(others), surface.layer, state);
    }

    /** Every surface listed after `Emplace` is the new one or was listed in the same layer before. */
    twostate lemma EmplacedMembers(surface: LayerSurface)
      requires old(Valid()) && surface.layer < LayerCount
      requires layers == old(layers)[surface.layer := old(layers[surface.layer]) + [surface]]
      ensures forall o :: o in layers[LayerBackground] ==> o in old(layers[LayerBackground]) || o == surface
      ensures forall o :: o in layers[LayerBottom] ==> o in old(layers[LayerBottom]) || o == surface
      ensures forall o :: o in layers[LayerTop] ==> o in old(layers[LayerTop]) || o == surface
      ensures forall o :: o in layers[LayerOverlay] ==> o in old(layers[LayerOverlay]) || o == surface
    {
    }

    /** `arrange_layers` with the output's states and geometries beforehand named `states` and `geos`. */
    method ArrangeFrom(ghost states: seq<seq<LayerState>>, ghost geos: seq<seq<Box>>) returns (topmost: LayerSurface?)
      requires Valid() && LayerStates() == states && LayerGeos() == geos
      modifies this`events, this`usableArea, layers[LayerBackground]`geo, layers[LayerBottom]`geo,
               layers[LayerTop]`geo, layers[LayerOverlay]`geo
      ensures Valid() && LayerStates() == states && layers == old(layers)
      ensures usableArea == ExclusiveUsable(states, FullArea())
      ensures LayerGeos() == FinalGeos(states, geos, FullArea())
      ensures events == old(events) + ArrangeEvents(layers, states, geos, FullArea()) + [FocusLayer(topmost)]
    {
      topmost := ArrangeLayers();
    }

    /**
     * The second half of `handle_layer_shell_surface`: the new surface joins
     * the end of its layer's list, and the output is arranged as if the
     * client's pending state were already current; afterwards the surface's
     * current state is put back.  The arrangement is that of
     * `arrange_layers` over the output's states with the pending state added.
     */
    method AddSurface(surface: LayerSurface) returns (topmost: LayerSurface?)
      requires Valid() && surface.layer < LayerCount
      requires forall m :: 0 <= m < LayerCount ==> surface !in layers[m]
      modifies this`layers, this`events, this`usableArea, surface`current, surface`geo,
               layers[LayerBackground]`geo, layers[LayerBottom]`geo, layers[LayerTop]`geo, layers[LayerOverlay]`geo
      ensures Valid() && layers == old(layers)[surface.layer := old(layers[surface.layer]) + [surface]]
      ensures surface.current == old(surface.current)
      ensures usableArea == ExclusiveUsable(Staged(old(LayerStates()), surface.layer, surface.pending), FullArea())
      ensures LayerGeos() == FinalGeos(Staged(old(LayerStates()), surface.layer, surface.pending),
                                       Staged(old(LayerGeos()), surface.layer, old(surface.geo)), FullArea())
      ensures events == old(events) + ArrangeEvents(layers, Staged(old(LayerStates()), surface.layer, surface.pending),
                                                    Staged(old(LayerGeos()), surface.layer, old(surface.geo)), FullArea())
                        + [FocusLayer(topmost)]
    {
      ghost var states := LayerStates();
      ghost var geos := LayerGeos();
      ghost var prev := layers[surface.layer];
      Emplace(surface, states, geos);
      EmplacedMembers(surface);
      topmost := ArrangePending(surface, prev, states, Staged(geos, surface.layer, surface.geo));
    }

    /**
     * The new surface, already last of its layer's list, is arranged with its
     * pending state standing in for the current one, which is then restored.
     */
    method ArrangePending(surface: LayerSurface, ghost prev: seq<LayerSurface>,
                          ghost states: seq<seq<LayerState>>, ghost geos: seq<seq<Box>>) returns (topmost: LayerSurface?)
      requires Valid() && surface.layer < LayerCount && |states| == LayerCount
      requires layers[surface.layer] == prev + [surface] && surface !in prev
      requires forall m :: 0 <= m < LayerCount && m != surface.layer ==> surface !in layers[m]
      requires LayerStates() == Staged(states, surface.layer, surface.current) && LayerGeos() == geos
      modifies this`events, this`usableArea, surface`current,
               layers[LayerBackground]`geo, layers[LayerBottom]`geo, layers[LayerTop]`geo, layers[LayerOverlay]`geo
      ensures Valid() && layers == old(layers) && surface.current == old(surface.current)
      ensures usableArea == ExclusiveUsable(Staged(states, surface.layer, surface.pending), FullArea())
      ensures LayerGeos() == FinalGeos(Staged(states, surface.layer, surface.pending), geos, FullArea())
      ensures events == old(events) + ArrangeEvents(layers, Staged(states, surface.layer, surface.pending), geos, FullArea())
                        + [FocusLayer(topmost)]
    {
      ghost var staged := Staged(states, surface.layer, surface.pending);
      var saved := surface.current;
      SetCurrent(surface, surface.pending, prev, states, geos);
      topmost := ArrangeFrom(staged, geos);
      SetCurrent(surface, saved, prev, states, FinalGeos(staged, geos, FullArea()));
    }
  }

  /**
   * The output a new layer surface goes to when the client named none: the
   * output under the last active seat's cursor, else the layout's centre
   * output.  A surface without any of the three is closed.
   */
  function FallbackOutput(requested: Output?, atCursor: Output?, center: Output?): (r: Output?)
    ensures r == null <==> requested == null && atCursor == null && center == null
    ensures requested != null ==> r == requested
    ensures r == requested || r == atCursor || r == center
  {
    if requested != null then requested else if atCursor != null then atCursor else center
  }

  /**
   * The first half of `handle_layer_shell_surface`: the surface's output is
   * settled, and the compositor output that will hold it is found among
   * `outputs`, the first one standing in when the surface's output is not
   * one of them.  A null result means the surface was closed.
   */
  method ChooseOutput(outputs: seq<Output>, surface: LayerSurface, atCursor: Output?, center: Output?)
    returns (target: Output?)
    requires FallbackOutput(surface.output, atCursor, center) != null ==> |outputs| > 0
    modifies surface`output
    ensures surface.output == FallbackOutput(old(surface.output), atCursor, center)
    ensures target == null <==> surface.output == null
    ensures target != null ==> target in outputs
    ensures surface.output in outputs ==> target == surface.output
    ensures surface.output != null && surface.output !in outputs ==> target == outputs[0]
  {
    if surface.output == null {
      var output := atCursor;
      if output == null {
        output := center;
      }
      if output != null {
        surface.output := output;
      } else {
        return null;
      }
    }
    target := if surface.output in outputs then surface.output else outputs[0];
  }
}
