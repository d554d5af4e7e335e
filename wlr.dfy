/**
 * Plain values that the compositor receives from wlroots and libwayland:
 * boxes in layout or surface coordinates, client identities and surfaces.
 * Pointers that may be null in the source are `Option`s here.
 */
module Wlr {

  /** `std::optional`, or a pointer that may be null. */
  datatype Option<T> = None | Some(value: T)

  /** A `wl_client`, compared by identity. */
  type ClientId = nat

  /** A `wlr_surface`: an identity and the client owning its resource. */
  datatype Surface = Surface(id: nat, client: ClientId)

  /** `wlr_box`: an integer rectangle. */
  datatype Box = Box(x: int, y: int, width: int, height: int)
}
