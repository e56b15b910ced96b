/** `BBox`: an axis-aligned rectangle of pixels that fits inside its space, its corner
    and centre views, its own local space, containment, moving coordinates into and
    out of that local space, and transforming the rectangle into another space. */
module Boxes {
  import opened Results
  import opened Spaces
  import opened Coordinates
  import Resize

  /** The `width` x `height` pixels whose top-left pixel is (`x`, `y`) in `space`. */
  datatype BBox = BBox(x: int, y: int, width: int, height: int, space: Space) {

    /** The construction-time validator: positive size, non-negative origin, and the
        right and bottom edges within the space. */
    predicate Valid() {
      && width > 0 && height > 0
      && x >= 0 && y >= 0
      && x + width <= space.width
      && y + height <= space.height
    }
  }

  /** Constructing a `BBox`: it exists exactly when the rectangle has positive size and
      lies inside the space. A non-positive size is reported first, as invalid
      dimensions; any other failure is out of bounds. */
  function NewBBox(x: int, y: int, width: int, height: int, space: Space): (r: Result<BBox>)
    ensures r.Ok? <==> (width > 0 && height > 0 && x >= 0 && y >= 0
                        && x + width <= space.width && y + height <= space.height)
    ensures r.Ok? ==> r.value.Valid() && r.value == BBox(x, y, width, height, space)
    ensures r.Err? ==> r.error == (if width <= 0 || height <= 0 then InvalidDimensions else OutOfBounds)
  {
    if width <= 0 || height <= 0 then Err(InvalidDimensions)
    else if x < 0 || y < 0 then Err(OutOfBounds)
    else if x + width > space.width then Err(OutOfBounds)
    else if y + height > space.height then Err(OutOfBounds)
    else Ok(BBox(x, y, width, height, space))
  }

  /** `contains`: the inclusive test that a coordinate lies between the top-left and
      bottom-right pixels. The coordinate's space is not consulted. */
  function Contains(b: BBox, c: Coordinate): (r: bool)
    requires b.Valid()
    ensures r <==> TopLeft(b).x <= c.x <= BottomRight(b).x && TopLeft(b).y <= c.y <= BottomRight(b).y
  {
    b.x <= c.x <= b.x + b.width - 1 && b.y <= c.y <= b.y + b.height - 1
  }

  /** `top_left`: the first pixel of the box, a valid coordinate of its space. */
  function TopLeft(b: BBox): (r: Coordinate)
    requires b.Valid()
    ensures r.Valid() && r.space == b.space
    ensures r.x == b.x && r.y == b.y
  {
    Coordinate(b.x, b.y, b.space)
  }

  /** `bottom_right`: the last pixel of the box (inclusive), a valid coordinate of its
      space, with the box exactly `width` by `height` pixels from top-left to it. */
  function BottomRight(b: BBox): (r: Coordinate)
    requires b.Valid()
    ensures r.Valid() && r.space == b.space
    ensures r.x - TopLeft(b).x + 1 == b.width && r.y - TopLeft(b).y + 1 == b.height
  {
    Coordinate(b.x + b.width - 1, b.y + b.height - 1, b.space)
  }

  /** `center`: the pixel half the width and half the height (rounded down) from the
      top-left one; it lies in the box, which it splits into a near part and a far
      part that is as large or one pixel larger. */
  function Center(b: BBox): (r: Coordinate)
    requires b.Valid()
    ensures r.Valid() && r.space == b.space && Contains(b, r)
    ensures 2 * (r.x - b.x) == b.width || 2 * (r.x - b.x) == b.width - 1
    ensures 2 * (r.y - b.y) == b.height || 2 * (r.y - b.y) == b.height - 1
  {
    Coordinate(b.x + b.width / 2, b.y + b.height / 2, b.space)
  }

  /** The two corner views lie in the box. */
  lemma CornersInside(b: BBox)
    requires b.Valid()
    ensures Contains(b, TopLeft(b)) && Contains(b, BottomRight(b))
  {
  }

  /** `as_space`: the box's own local space, of the box's size. */
  function AsSpace(b: BBox): (r: Space)
    requires b.Valid()
    ensures r.Valid() && r.width == b.width && r.height == b.height
  {
    Space(b.width, b.height)
  }

  /** `localize`: a coordinate of the parent space re-expressed relative to the box's
      top-left pixel, in the box's local space. It succeeds exactly when the box
      contains the coordinate; otherwise the local coordinate is out of bounds. */
  function Localize(b: BBox, c: Coordinate): (r: Result<Coordinate>)
    requires b.Valid()
    ensures r.Ok? <==> Contains(b, c)
    ensures r.Err? ==> r.error == OutOfBounds
    ensures r.Ok? ==> r.value.Valid() && r.value == Coordinate(c.x - b.x, c.y - b.y, AsSpace(b))
  {
    NewCoordinate(c.x - b.x, c.y - b.y, AsSpace(b))
  }

  /** `absolutize`: a local coordinate moved back to the parent space by adding the
      box's top-left pixel. It never fails for a coordinate of the local space, and
      the result then lies in the box. */
  function Absolutize(b: BBox, l: Coordinate): (r: Result<Coordinate>)
    requires b.Valid()
    ensures l.Valid() && l.space == AsSpace(b) ==> r.Ok? && Contains(b, r.value)
    ensures r.Err? ==> r.error == OutOfBounds
    ensures r.Ok? ==> r.value.Valid() && r.value == Coordinate(l.x + b.x, l.y + b.y, b.space)
  {
    NewCoordinate(l.x + b.x, l.y + b.y, b.space)
  }

  /** Localizing a coordinate of the box and absolutizing the result gives it back. */
  lemma AbsolutizeLocalize(b: BBox, c: Coordinate)
    requires b.Valid() && c.space == b.space && Contains(b, c)
    ensures Localize(b, c).Ok? && Absolutize(b, Localize(b, c).value) == Ok(c)
  {
  }

  /** Absolutizing a local coordinate and localizing the result gives it back. */
  lemma LocalizeAbsolutize(b: BBox, l: Coordinate)
    requires b.Valid() && l.Valid() && l.space == AsSpace(b)
    ensures Absolutize(b, l).Ok? && Localize(b, Absolutize(b, l).value) == Ok(l)
  {
  }

  /** `to_space(target, resize_metadata)`: the top-left and bottom-right pixels are
      transformed independently by `Coordinate.to_space` and a box is rebuilt between
      them. Because the transforms keep order, the rebuilt box always passes
      validation: the only failure is the transforms' division by zero. */
  function ToSpace(b: BBox, target: Space, m: Option<Resize.ResizeMetadata>): (r: Result<BBox>)
    requires b.Valid() && target.Valid() && (m.Some? ==> m.value.Valid())
    ensures r.Ok? <==> Resize.CanMap(b.space, target, m)
    ensures r.Err? ==> r.error == DivisionByZero
    ensures r.Ok? ==> r.value.Valid() && r.value.space == target
    ensures r.Ok? ==> TopLeft(r.value) == Resize.ToSpace(TopLeft(b), target, m).value
    ensures r.Ok? ==> BottomRight(r.value) == Resize.ToSpace(BottomRight(b), target, m).value
  {
    match (Resize.ToSpace(TopLeft(b), target, m), Resize.ToSpace(BottomRight(b), target, m))
    case (Err(e), _) => Err(e)
    case (_, Err(e)) => Err(e)
    case (Ok(topLeft), Ok(bottomRight)) =>
      Resize.ToSpaceMonotone(TopLeft(b), BottomRight(b), target, m);
      NewBBox(topLeft.x, topLeft.y, bottomRight.x - topLeft.x + 1, bottomRight.y - topLeft.y + 1, target)
  }
}
