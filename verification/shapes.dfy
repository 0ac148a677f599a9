/** The shape records of utils.hpp: `Polygon` and its subclasses `Circle`,
    `Rectangle` and `Point`, as one tagged datatype. Every shape has a position,
    a colour and a fill flag; circles add a radius, rectangles a width and height. */
module Shapes {
  import opened SdlTypes

  datatype Shape =
    | Circle(x: int, y: int, color: Color, fill: bool, radius: int)
    | Rectangle(x: int, y: int, color: Color, fill: bool, width: int, height: int)
    | Point(x: int, y: int, color: Color, fill: bool)

  /** `s` and `t` are the same kind of shape with the same size. */
  predicate SameGeometry(s: Shape, t: Shape) {
    match s
    case Circle(_, _, _, _, r) => t.Circle? && t.radius == r
    case Rectangle(_, _, _, _, w, h) => t.Rectangle? && t.width == w && t.height == h
    case Point(_, _, _, _) => t.Point?
  }

  /** Circle(x, y, radius, color, fill). */
  function NewCircle(x: int, y: int, radius: int, color: Color, fill: bool): (s: Shape)
    ensures s.Circle? && s.radius == radius
    ensures s.x == x && s.y == y && s.color == color && s.fill == fill
  {
    Circle(x, y, color, fill, radius)
  }

  /** Circle(x, y, radius, color): the fill flag keeps its default, false. */
  function NewOutlineCircle(x: int, y: int, radius: int, color: Color): (s: Shape)
    ensures s == NewCircle(x, y, radius, color, false)
  {
    Circle(x, y, color, false, radius)
  }

  /** Rectangle(x, y, width, height, color, fill). */
  function NewRectangle(x: int, y: int, width: int, height: int, color: Color, fill: bool): (s: Shape)
    ensures s.Rectangle? && s.width == width && s.height == height
    ensures s.x == x && s.y == y && s.color == color && s.fill == fill
  {
    Rectangle(x, y, color, fill, width, height)
  }

  /** Rectangle(x, y, width, height, color): the fill flag keeps its default, false. */
  function NewOutlineRectangle(x: int, y: int, width: int, height: int, color: Color): (s: Shape)
    ensures s == NewRectangle(x, y, width, height, color, false)
  {
    Rectangle(x, y, color, false, width, height)
  }

  /** Point(x, y, color): points have no fill argument, so the flag is false. */
  function NewPoint(x: int, y: int, color: Color): (s: Shape)
    ensures s.Point? && s.x == x && s.y == y && s.color == color && !s.fill
  {
    Point(x, y, color, false)
  }

  /** Polygon::move: the position becomes exactly (x, y) and nothing else changes. */
  function Move(s: Shape, x: int, y: int): (t: Shape)
    ensures t.x == x && t.y == y
    ensures t.color == s.color && t.fill == s.fill && SameGeometry(s, t)
  {
    s.(x := x, y := y)
  }

  /** Polygon::setColor: the colour becomes `c` and nothing else changes. */
  function SetColor(s: Shape, c: Color): (t: Shape)
    ensures t.color == c
    ensures t.x == s.x && t.y == s.y && t.fill == s.fill && SameGeometry(s, t)
  {
    s.(color := c)
  }

  /** The constructors without a fill argument all leave the fill flag false. */
  lemma ShortConstructorsDoNotFill(x: int, y: int, n: int, m: int, c: Color)
    ensures !NewOutlineCircle(x, y, n, c).fill
    ensures !NewOutlineRectangle(x, y, n, m, c).fill
    ensures !NewPoint(x, y, c).fill
  {
  }

  /** `x()`/`y()` report the most recent `move`, and a later `move` overrides an earlier one. */
  lemma MoveLastWins(s: Shape, x1: int, y1: int, x2: int, y2: int)
    ensures Move(Move(s, x1, y1), x2, y2) == Move(s, x2, y2)
    ensures Move(s, s.x, s.y) == s
  {
  }

  /** Moving and recolouring touch disjoint fields, so their order does not matter. */
  lemma MoveSetColorCommute(s: Shape, x: int, y: int, c: Color)
    ensures Move(SetColor(s, c), x, y) == SetColor(Move(s, x, y), c)
  {
  }

  /** Only `move` and `setColor` change a shape, and neither changes its
      radius or size: they remain the constructed values. */
  lemma UpdatesKeepGeometry(s: Shape, x: int, y: int, c: Color)
    ensures s.Circle? ==> Move(s, x, y).radius == s.radius && SetColor(s, c).radius == s.radius
    ensures s.Rectangle? ==> Move(s, x, y).width == s.width && Move(s, x, y).height == s.height
    ensures s.Rectangle? ==> SetColor(s, c).width == s.width && SetColor(s, c).height == s.height
  {
  }
}
