/** The values the sketch works on: a placed glyph and a canvas point. */
module Glyphs {

  /** A character placed on the canvas; the sketch's Letter reduced to the
      fields that take part in its logic (colour, size and rotation are fixed
      and only used for drawing). */
  datatype Glyph = Glyph(ch: char, x: int, y: int)

  /** A canvas position. */
  datatype Point = Point(x: int, y: int)

  /** The position of a glyph. */
  function PosOf(g: Glyph): (p: Point)
  {
    Point(g.x, g.y)
  }

  datatype Option<T> = None | Some(value: T)
}
