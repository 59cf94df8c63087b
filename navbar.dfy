/**
 * The navbar's shadow: on every scroll event the shadow is recomputed from
 * the vertical scroll offset alone.
 */
module NavbarShadow {

  /** Scroll offset beyond which the navbar casts a shadow. */
  const Threshold: real := 10.0
  const Shadow: string := "0 4px 30px rgba(0,0,0,0.5)"
  const NoShadow: string := "none"

  /** The `box-shadow` the scroll handler assigns for a given `scrollY`. */
  function ShadowFor(scrollY: real): (r: string)
    ensures r == Shadow <==> scrollY > 10.0
    ensures r == NoShadow <==> scrollY <= 10.0
  {
    if scrollY > Threshold then Shadow else NoShadow
  }

  /** Scrolling further down never takes the shadow away. */
  lemma ShadowMonotone(y1: real, y2: real)
    requires y1 <= y2 && ShadowFor(y1) == Shadow
    ensures ShadowFor(y2) == Shadow
  {
  }

  class Navbar {
    var boxShadow: string

    constructor ()
      ensures boxShadow == ""
    {
      boxShadow := "";
    }

    /** The window scroll handler: the result depends on `scrollY` only, never on the previous shadow. */
    method OnScroll(scrollY: real)
      modifies this
      ensures boxShadow == ShadowFor(scrollY)
    {
      if scrollY > Threshold {
        boxShadow := Shadow;
      } else {
        boxShadow := NoShadow;
      }
    }
  }
}
