/** `Coordinate`: a pixel position bound to its space, and the pixel-centre ratio
    remap from one space to another that `Coordinate.to_space` performs when it is
    given no resize metadata. (The metadata branch of `to_space` is `Resize.ToSpace`:
    the metadata type depends on this module.) */
module Coordinates {
  import opened Results
  import opened Rounding
  import opened Spaces

  /** The pixel in column `x`, row `y` of `space`. */
  datatype Coordinate = Coordinate(x: int, y: int, space: Space) {

    /** The construction-time validator: the pixel lies inside its space. */
    predicate Valid() {
      0 <= x < space.width && 0 <= y < space.height
    }
  }

  /** Constructing a `Coordinate`: it exists exactly when the pixel lies inside the
      space, and then holds the given position. */
  function NewCoordinate(x: int, y: int, space: Space): (r: Result<Coordinate>)
    ensures r.Ok? <==> 0 <= x < space.width && 0 <= y < space.height
    ensures r.Ok? ==> r.value.Valid() && r.value == Coordinate(x, y, space)
    ensures r.Err? ==> r.error == OutOfBounds
  {
    if !(0 <= x < space.width) then Err(OutOfBounds)
    else if !(0 <= y < space.height) then Err(OutOfBounds)
    else Ok(Coordinate(x, y, space))
  }

  /** One axis of the pixel-centre ratio remap: index p of a `from`-pixel axis goes to
      round(p * (to - 1) / (from - 1)) on a `to`-pixel axis, clamped into [0, to - 1].
      The source divides by from - 1 unguarded, so `from` must exceed 1 here. */
  function RatioAxis(p: int, from: int, to: int): (r: int)
    requires from > 1 && to > 0
    ensures 0 <= r < to
  {
    Clamp(RoundHalfEven(p * (to - 1), from - 1), to - 1)
  }

  /** For an index inside the axis the clamp never acts: the result is Python's
      `round` of the exact ratio p * (to - 1) / (from - 1), so the nearest integer to
      it, ties going to the even one. */
  lemma RatioAxisNearest(p: int, from: int, to: int)
    requires from > 1 && to > 0 && 0 <= p < from
    ensures RatioAxis(p, from, to) == RoundHalfEven(p * (to - 1), from - 1)
    ensures -(from - 1) <= 2 * (p * (to - 1) - (from - 1) * RatioAxis(p, from, to)) <= from - 1
  {
    ScaledRoundingInRange(p, from - 1, to - 1);
  }

  /** The first pixel maps to the first pixel and the last pixel to the last pixel. */
  lemma RatioAxisEndpoints(from: int, to: int)
    requires from > 1 && to > 0
    ensures RatioAxis(0, from, to) == 0
    ensures RatioAxis(from - 1, from, to) == to - 1
  {
    RoundHalfEvenExact(0, from - 1);
    assert (from - 1) * (to - 1) == (to - 1) * (from - 1);
    RoundHalfEvenExact(to - 1, from - 1);
  }

  /** Remapping an axis onto one of the same length changes nothing. */
  lemma RatioAxisIdentity(p: int, dim: int)
    requires dim > 1 && 0 <= p < dim
    ensures RatioAxis(p, dim, dim) == p
  {
    RoundHalfEvenExact(p, dim - 1);
  }

  /** The remap never reverses the order of two pixels on an axis. */
  lemma RatioAxisMonotone(p1: int, p2: int, from: int, to: int)
    requires from > 1 && to > 0 && p1 <= p2
    ensures RatioAxis(p1, from, to) <= RatioAxis(p2, from, to)
  {
    MulMonotone(p1, p2, to - 1);
    RoundHalfEvenMonotone(p1 * (to - 1), p2 * (to - 1), from - 1);
    ClampMonotone(RoundHalfEven(p1 * (to - 1), from - 1), RoundHalfEven(p2 * (to - 1), from - 1), to - 1);
  }

  /** `Coordinate.to_space(target)` without metadata: the ratio remap on each axis.
      It fails only by dividing by zero, when its own space is one pixel wide or high;
      otherwise it yields a valid coordinate of `target`, so its construction never
      fails. */
  function RatioToSpace(c: Coordinate, target: Space): (r: Result<Coordinate>)
    requires c.Valid() && target.Valid()
    ensures r.Ok? <==> c.space.width > 1 && c.space.height > 1
    ensures r.Err? ==> r.error == DivisionByZero
    ensures r.Ok? ==> r.value.Valid() && r.value.space == target
    ensures r.Ok? ==> r.value == Coordinate(RatioAxis(c.x, c.space.width, target.width),
                                            RatioAxis(c.y, c.space.height, target.height), target)
  {
    if c.space.width == 1 || c.space.height == 1 then Err(DivisionByZero)
    else
      NewCoordinate(RatioAxis(c.x, c.space.width, target.width),
                    RatioAxis(c.y, c.space.height, target.height), target)
  }

  /** Remapping a coordinate into its own space returns it unchanged. */
  lemma RatioToSpaceIdentity(c: Coordinate)
    requires c.Valid() && c.space.width > 1 && c.space.height > 1
    ensures RatioToSpace(c, c.space) == Ok(c)
  {
    RatioAxisIdentity(c.x, c.space.width);
    RatioAxisIdentity(c.y, c.space.height);
  }

  /** The origin maps to the origin and the far corner to the far corner. */
  lemma RatioToSpaceCorners(s: Space, target: Space)
    requires s.width > 1 && s.height > 1 && target.Valid()
    ensures RatioToSpace(Coordinate(0, 0, s), target) == Ok(Coordinate(0, 0, target))
    ensures RatioToSpace(Coordinate(s.width - 1, s.height - 1, s), target)
         == Ok(Coordinate(target.width - 1, target.height - 1, target))
  {
    RatioAxisEndpoints(s.width, target.width);
    RatioAxisEndpoints(s.height, target.height);
  }

  /** The remap keeps the order of two coordinates of one space on each axis. */
  lemma RatioToSpaceMonotone(c1: Coordinate, c2: Coordinate, target: Space)
    requires c1.Valid() && c2.Valid() && target.Valid() && c1.space == c2.space
    requires c1.space.width > 1 && c1.space.height > 1
    requires c1.x <= c2.x && c1.y <= c2.y
    ensures RatioToSpace(c1, target).value.x <= RatioToSpace(c2, target).value.x
    ensures RatioToSpace(c1, target).value.y <= RatioToSpace(c2, target).value.y
  {
    RatioAxisMonotone(c1.x, c2.x, c1.space.width, target.width);
    RatioAxisMonotone(c1.y, c2.y, c1.space.height, target.height);
  }
}
