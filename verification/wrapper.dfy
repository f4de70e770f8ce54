/** The part of a sticky wrapper the container relies on: which view it wraps
    and the last two screen readings of that view's top edge. The wrapper is
    also the view's original host, so a wrapper id doubles as a parent. */
module StickyWrapper {

  type ViewId = nat
  type WrapperId = nat

  /** A reference that may be null. */
  datatype Option<T> = None | Some(value: T)

  /** sticky is None for a wrapper whose view is null. */
  datatype Wrapper = Wrapper(sticky: Option<ViewId>, location: int, lastLocation: int)

  /** Movement of the view's top on screen between the last two readings. */
  function LocationDelta(w: Wrapper): int {
    w.location - w.lastLocation
  }

  /** Takes a fresh screen reading: the previous reading becomes the last one. */
  function UpdateLocation(w: Wrapper, reading: int): (r: Wrapper)
    ensures r.sticky == w.sticky
    ensures r.location == reading
    ensures LocationDelta(r) == reading - w.location
  {
    Wrapper(w.sticky, reading, w.location)
  }
}
