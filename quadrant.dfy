/**
 * Which answer a tap on the screen gives (app/page.tsx, `handleScreenTap` while playing).
 * The screen is split at half its width and half its height; a tap on a midline falls
 * to the bottom and to the right.
 */
module Quadrant {
  import opened Calls

  /** The if-chain of the handler: top-left police, top-right fire, bottom-left ems, bottom-right prank. */
  function FromHalves(isTopHalf: bool, isLeftHalf: bool): (r: Dispatch)
    ensures r == Police <==> isTopHalf && isLeftHalf
    ensures r == Fire <==> isTopHalf && !isLeftHalf
    ensures r == Ems <==> !isTopHalf && isLeftHalf
    ensures r == Prank <==> !isTopHalf && !isLeftHalf
  {
    if isTopHalf && isLeftHalf then Police
    else if isTopHalf && !isLeftHalf then Fire
    else if !isTopHalf && isLeftHalf then Ems
    else Prank
  }

  /**
   * The answer of a point on a `w` by `h` screen: `y < h / 2` and `x < w / 2` are stated as
   * `2 * y < h` and `2 * x < w`, so a point on a midline counts as bottom or right.
   */
  function Classify(x: int, y: int, w: int, h: int): (r: Dispatch)
    ensures r == Police <==> 2 * y < h && 2 * x < w
    ensures r == Fire <==> 2 * y < h && 2 * x >= w
    ensures r == Ems <==> 2 * y >= h && 2 * x < w
    ensures r == Prank <==> 2 * y >= h && 2 * x >= w
  {
    FromHalves(2 * y < h, 2 * x < w)
  }

  /** The event that reached the handler: a mouse click, or a touch at the point where the finger landed. */
  datatype Pointer = Mouse(clientX: int, clientY: int) | Touch(touchX: int, touchY: int)

  /** A coordinate as the handler reads it: a number, or `undefined`. */
  datatype Coord = Num(v: int) | Undefined

  /**
   * The handler reads `event.touches.clientX` and `event.touches.clientY` for a touch. `touches`
   * is a list, so both reads are `undefined` whatever point was touched; a click gives its own point.
   */
  function ReadTap(p: Pointer): (r: (Coord, Coord))
    ensures p.Touch? ==> r == (Undefined, Undefined)
    ensures p.Mouse? ==> r == (Num(p.clientX), Num(p.clientY))
  {
    match p
    case Mouse(x, y) => (Num(x), Num(y))
    case Touch(_, _) => (Undefined, Undefined)
  }

  /** `c < bound / 2` under JavaScript's rules: any comparison with `undefined` is false. */
  predicate Below(c: Coord, bound: int) {
    c.Num? && 2 * c.v < bound
  }

  /** The answer a tap gives on a `w` by `h` screen: a click by its quadrant, a touch always prank. */
  function TapDispatch(p: Pointer, w: int, h: int): (r: Dispatch)
    ensures p.Touch? ==> r == Prank
    ensures p.Mouse? ==> r == Classify(p.clientX, p.clientY, w, h)
  {
    var (tapX, tapY) := ReadTap(p);
    FromHalves(Below(tapY, h), Below(tapX, w))
  }
}
