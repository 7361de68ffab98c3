/**
 * Geometry primitives and the box model, as the layout box consumes them.
 * Lengths are f32 in the source; here they are reals, with no rounding and no NaN.
 */
module Geometry {
  datatype Point = Point(x: real, y: real)

  datatype Size = Size(width: real, height: real)

  /** Four edge lengths, as in a margin, border or padding. */
  datatype Edges = Edges(top: real, right: real, bottom: real, left: real)

  datatype Rect = Rect(x: real, y: real, width: real, height: real) {
    /** Shifts the origin; the size is kept. */
    function Translate(dx: real, dy: real): Rect
    {
      Rect(x + dx, y + dy, width, height)
    }

    /** Grows the rectangle outward by `e` on each of its four sides. */
    function AddOuterEdges(e: Edges): Rect
    {
      Rect(x - e.left, y - e.top, width + e.left + e.right, height + e.top + e.bottom)
    }
  }

  /** The rectangle with origin `origin` and extent `size`. */
  function RectFrom(origin: Point, size: Size): Rect
  {
    Rect(origin.x, origin.y, size.width, size.height)
  }

  /** Margin, border and padding edges of one box. */
  datatype BoxModel = BoxModel(margin: Edges, border: Edges, padding: Edges) {
    function MarginBox(): Edges { margin }
    function BorderBox(): Edges { border }
    function PaddingBox(): Edges { padding }
  }

  const ZeroEdges: Edges := Edges(0.0, 0.0, 0.0, 0.0)
  const ZeroBoxModel: BoxModel := BoxModel(ZeroEdges, ZeroEdges, ZeroEdges)
}
