/** The pieces of one placement attempt: a signed step along one axis away
    from the previous glyph, wrap-around at a border, and the minimum-distance
    test against the glyphs already placed. */
module Jump {
  import opened Glyphs

  /** Width of the band along each canvas edge that a candidate wraps across. */
  const Border := 20

  datatype Axis = AxisX | AxisY

  type Sign = s: int | s == -1 || s == 1 witness 1

  /** The three random choices of one attempt: a direction, a step length
      (drawn uniformly from the attempt's range) and an axis. */
  datatype Draw = Draw(direction: Sign, magnitude: int, axis: Axis)

  function Abs(n: int): (r: nat)
  {
    if n < 0 then -n else n
  }

  /** The candidate before wrapping: the previous glyph moved by the signed
      step along the drawn axis. */
  function Step(prev: Glyph, d: Draw): (p: Point)
    ensures Abs(p.x - prev.x) + Abs(p.y - prev.y) == Abs(d.magnitude)
    ensures d.magnitude != 0 ==> (p.x != prev.x) != (p.y != prev.y)
    ensures d.axis == AxisX ==> p.y == prev.y
    ensures d.axis == AxisY ==> p.x == prev.x
  {
    var distance := d.magnitude * d.direction;
    if d.axis == AxisX then Point(prev.x + distance, prev.y)
    else Point(prev.x, prev.y + distance)
  }

  /** True when the canvas leaves room for the border on both sides. */
  predicate CanvasFits(width: int, height: int)
  {
    Border + Border <= width && Border + Border <= height
  }

  /** Wrap-around of one coordinate on an axis `extent` long: past the far
      border it reappears at the near border, before the near border at the
      far one; a coordinate between the borders stays where it is. */
  function Wrap(c: int, extent: int): (r: int)
    ensures Border + Border <= extent ==> Border <= r <= extent - Border
    ensures Border <= c <= extent - Border ==> r == c
    ensures c > extent - Border ==> r == Border
    ensures c < Border && c <= extent - Border ==> r == extent - Border
  {
    var c1 := if c > extent - Border then Border else c;
    if c1 < Border then extent - Border else c1
  }

  /** The point lies between the borders of a width x height canvas. */
  predicate InsideBorder(p: Point, width: int, height: int)
  {
    Border <= p.x <= width - Border && Border <= p.y <= height - Border
  }

  /** The candidate of one attempt, after wrapping. */
  function Target(prev: Glyph, d: Draw, width: int, height: int): (p: Point)
    ensures CanvasFits(width, height) ==> InsideBorder(p, width, height)
    ensures InsideBorder(Step(prev, d), width, height) ==> p == Step(prev, d)
  {
    var s := Step(prev, d);
    Point(Wrap(s.x, width), Wrap(s.y, height))
  }

  /** Squared Euclidean distance between a point and a glyph. */
  function DistSq(p: Point, g: Glyph): (d: nat)
    ensures d == 0 <==> PosOf(g) == p
  {
    (p.x - g.x) * (p.x - g.x) + (p.y - g.y) * (p.y - g.y)
  }

  /** The point is at distance at least `safe` from every glyph; with integer
      coordinates, comparing squares decides the same as comparing distances. */
  predicate Clear(letters: seq<Glyph>, p: Point, safe: nat)
    ensures Clear(letters, p, safe) && safe > 0 ==>
      forall k :: 0 <= k < |letters| ==> PosOf(letters[k]) != p
  {
    forall k :: 0 <= k < |letters| ==> DistSq(p, letters[k]) >= safe * safe
  }
}
