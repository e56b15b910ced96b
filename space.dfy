/** `Space`: the width and height of a pixel grid, both positive once constructed. */
module Spaces {
  import opened Results

  /** A pixel grid of `width` columns and `height` rows. Equality is the datatype's
      structural equality, on both dimensions. */
  datatype Space = Space(width: int, height: int) {

    /** The construction-time validator: both dimensions positive. */
    predicate Valid() {
      width > 0 && height > 0
    }
  }

  /** Constructing a `Space`: it exists exactly when both dimensions are positive,
      and then holds them unchanged. */
  function NewSpace(width: int, height: int): (r: Result<Space>)
    ensures r.Ok? <==> width > 0 && height > 0
    ensures r.Ok? ==> r.value.Valid() && r.value.width == width && r.value.height == height
    ensures r.Err? ==> r.error == InvalidDimensions
  {
    if width <= 0 || height <= 0 then Err(InvalidDimensions)
    else Ok(Space(width, height))
  }

  /** `aspect_ratio`, exactly, as the rational width / height. */
  function AspectRatio(s: Space): (r: real)
    requires s.Valid()
    ensures r > 0.0
    ensures r * s.height as real == s.width as real
    ensures r == 1.0 <==> s.width == s.height
  {
    s.width as real / s.height as real
  }

  /** Two spaces are the same space exactly when both dimensions agree. */
  lemma SpaceEquality(a: Space, b: Space)
    ensures a == b <==> a.width == b.width && a.height == b.height
  {
  }
}
