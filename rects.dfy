/** Points and rectangles of the host UI toolkit (CGPoint, CGRect), with
    CGFloat modelled as `real`: CGFloat rounding is not modelled. */
module Rects {

  /** A point in some view's coordinate space. */
  datatype Point = Point(x: real, y: real)

  /** A rectangle given by its origin and size. As in Core Graphics the
      size may be negative; the Min/Max accessors then read the
      standardized rectangle, exactly like CGRectGetMinX and friends. */
  datatype Rect = Rect(x: real, y: real, width: real, height: real) {

    function MinX(): real { if width >= 0.0 then x else x + width }
    function MaxX(): real { if width >= 0.0 then x + width else x }
    function MinY(): real { if height >= 0.0 then y else y + height }
    function MaxY(): real { if height >= 0.0 then y + height else y }

    /** CGRectContainsPoint: the left and top edges belong to the
        rectangle, the right and bottom edges do not. */
    predicate Contains(p: Point) {
      MinX() <= p.x < MaxX() && MinY() <= p.y < MaxY()
    }

    /** The same rectangle seen from a coordinate space whose origin is
        at (-dx, -dy), i.e. translated by (dx, dy). */
    function Offset(dx: real, dy: real): Rect {
      Rect(x + dx, y + dy, width, height)
    }
  }

  /** The rectangle CGRect.zero that a view has before it is laid out. */
  const Zero: Rect := Rect(0.0, 0.0, 0.0, 0.0)

  function Min(a: real, b: real): real { if a <= b then a else b }

  function Max(a: real, b: real): real { if a >= b then a else b }
}
