/** The concrete spaces, coordinates and boxes that the library's test suite exercises,
    with the outcomes it expects, derived from the model. Where a general law of the
    other modules covers a case, the lemma here instantiates it; where the general
    law's hypothesis fails (the mobile screenshots shrink an axis more than threefold)
    the case is computed outright. */
module Scenarios {
  import opened Results
  import opened Spaces
  import opened Coordinates
  import opened Resize
  import opened Boxes

  const Hd := Space(1920, 1080)
  const Square := Space(1024, 1024)
  const Tall := Space(1080, 1920)
  const Mobile := Space(1080, 2400)
  const Wxga := Space(1366, 768)
  const Xga := Space(1024, 768)
  const Small := Space(100, 100)
  const Medium := Space(200, 200)
  const Half := Space(960, 540)
  const Screen := Space(2560, 1440)

  /** Forward then inverse brings `c` back into its own space to within one pixel. */
  predicate ReturnsWithinOne(m: ResizeMetadata, c: Coordinate)
    requires m.Valid() && c.Valid()
  {
    var f := ForwardTransformCoordinate(m, c);
    && f.Ok?
    && TransformCoordinate(m, f.value, m.sourceSpace).Ok?
    && WithinOnePixel(TransformCoordinate(m, f.value, m.sourceSpace).value, c)
  }

  // ---------------------------------------------------------------------------
  // Space and Coordinate construction

  /** Positive dimensions construct; a zero or negative one is rejected. Equality is
      by value, and a square has aspect ratio exactly 1. */
  lemma SpaceCases()
    ensures NewSpace(1920, 1080) == Ok(Hd)
    ensures NewSpace(0, 100) == Err(InvalidDimensions) && NewSpace(100, 0) == Err(InvalidDimensions)
    ensures NewSpace(-1, 100) == Err(InvalidDimensions) && NewSpace(100, -1) == Err(InvalidDimensions)
    ensures Space(100, 200) == Space(100, 200) && Space(100, 200) != Space(200, 100)
    ensures AspectRatio(Square) == 1.0
    ensures AspectRatio(Hd) == 16.0 / 9.0 && AspectRatio(Tall) == 9.0 / 16.0
  {
  }

  /** The edges of a 100 x 100 space are inside it; one past them, or below zero, is not. */
  lemma CoordinateCases()
    ensures NewCoordinate(0, 0, Small).Ok? && NewCoordinate(99, 99, Small).Ok?
    ensures NewCoordinate(100, 0, Small) == Err(OutOfBounds) && NewCoordinate(0, 100, Small) == Err(OutOfBounds)
    ensures NewCoordinate(-1, 0, Small) == Err(OutOfBounds) && NewCoordinate(0, -1, Small) == Err(OutOfBounds)
  {
  }

  /** The ratio remap between a 100- and a 200-pixel square: 50 goes to
      round(50 * 199 / 99) = 101, 100 comes back to round(100 * 99 / 199) = 50, and the
      origin stays put. */
  lemma RatioRemapCases()
    ensures RatioToSpace(Coordinate(50, 50, Small), Medium) == Ok(Coordinate(101, 101, Medium))
    ensures RatioToSpace(Coordinate(0, 0, Small), Medium) == Ok(Coordinate(0, 0, Medium))
    ensures RatioToSpace(Coordinate(100, 100, Medium), Small) == Ok(Coordinate(50, 50, Small))
  {
  }

  // ---------------------------------------------------------------------------
  // Metadata

  /** Stretch metadata from HD to a square: no offsets, the full target size; the
      centre pixel of HD goes to the centre of the square and comes back. */
  lemma StretchMetadataCase()
    ensures ComputeStretchMetadata(Hd, Square) == ResizeMetadata(Hd, Square, Stretch, 1.0, 0, 0, 1024, 1024)
    ensures ForwardTransformCoordinate(ComputeStretchMetadata(Hd, Square), Coordinate(960, 540, Hd))
            == Ok(Coordinate(512, 512, Square))
    ensures TransformCoordinate(ComputeStretchMetadata(Hd, Square), Coordinate(512, 512, Square), Hd)
            == Ok(Coordinate(960, 540, Hd))
  {
  }

  /** Letterbox metadata for every pair of spaces the tests use: a wider source gets
      bars above and below, a taller one bars at the sides, and a source of the target's
      aspect ratio none. */
  lemma LetterboxMetadataCases()
    ensures ComputeLetterboxMetadata(Hd, Square)
         == ResizeMetadata(Hd, Square, Letterbox, 1024.0 / 1920.0, 0, 224, 1024, 576)
    ensures ComputeLetterboxMetadata(Tall, Square)
         == ResizeMetadata(Tall, Square, Letterbox, 1024.0 / 1920.0, 224, 0, 576, 1024)
    ensures ComputeLetterboxMetadata(Mobile, Wxga)
         == ResizeMetadata(Mobile, Wxga, Letterbox, 768.0 / 2400.0, 510, 0, 346, 768)
    ensures ComputeLetterboxMetadata(Mobile, Xga)
         == ResizeMetadata(Mobile, Xga, Letterbox, 768.0 / 2400.0, 339, 0, 346, 768)
    ensures ComputeLetterboxMetadata(Hd, Half)
         == ResizeMetadata(Hd, Half, Letterbox, 960.0 / 1920.0, 0, 0, 960, 540)
  {
  }

  // ---------------------------------------------------------------------------
  // Round trips

  /** HD to a square, both modes: every source pixel, the corners and the centre among
      them, returns to within one pixel, by the general laws (both HD axes shrink less
      than threefold). */
  lemma HdSquareRoundTrips(c: Coordinate)
    requires c.Valid() && c.space == Hd
    ensures ReturnsWithinOne(ComputeStretchMetadata(Hd, Square), c)
    ensures ReturnsWithinOne(ComputeLetterboxMetadata(Hd, Square), c)
  {
    StretchRoundTrip(Hd, Square, c);
    LetterboxMetadataCases();
    LetterboxRoundTrip(Hd, Square, c);
  }

  /** The mobile screenshot letterboxed into WXGA and XGA: the four corners and the
      centre return to within one pixel, and so does the centre when stretched into
      WXGA. Both letterboxed axes shrink more than threefold, so these are computed
      case by case. */
  lemma MobileRoundTrips()
    ensures var m := ComputeLetterboxMetadata(Mobile, Wxga);
      && ReturnsWithinOne(m, Coordinate(0, 0, Mobile))
      && ReturnsWithinOne(m, Coordinate(1079, 0, Mobile))
      && ReturnsWithinOne(m, Coordinate(0, 2399, Mobile))
      && ReturnsWithinOne(m, Coordinate(1079, 2399, Mobile))
      && ReturnsWithinOne(m, Coordinate(540, 1200, Mobile))
    ensures var m := ComputeLetterboxMetadata(Mobile, Xga);
      && ReturnsWithinOne(m, Coordinate(0, 0, Mobile))
      && ReturnsWithinOne(m, Coordinate(1079, 0, Mobile))
      && ReturnsWithinOne(m, Coordinate(0, 2399, Mobile))
      && ReturnsWithinOne(m, Coordinate(1079, 2399, Mobile))
      && ReturnsWithinOne(m, Coordinate(540, 1200, Mobile))
    ensures ReturnsWithinOne(ComputeStretchMetadata(Mobile, Wxga), Coordinate(540, 1200, Mobile))
  {
    LetterboxMetadataCases();
  }

  /** The round trip is not within one pixel for every source pixel: letterboxing the
      mobile screenshot into WXGA sends rows 11 to 14 all to row 4, which comes back as
      row 13, two rows from row 11. No inverse could do better for all four rows. */
  lemma MobileRowsCollapse()
    ensures var m := ComputeLetterboxMetadata(Mobile, Wxga);
      && ForwardTransformCoordinate(m, Coordinate(0, 11, Mobile)) == Ok(Coordinate(510, 4, Wxga))
      && ForwardTransformCoordinate(m, Coordinate(0, 12, Mobile)) == Ok(Coordinate(510, 4, Wxga))
      && ForwardTransformCoordinate(m, Coordinate(0, 13, Mobile)) == Ok(Coordinate(510, 4, Wxga))
      && ForwardTransformCoordinate(m, Coordinate(0, 14, Mobile)) == Ok(Coordinate(510, 4, Wxga))
      && TransformCoordinate(m, Coordinate(510, 4, Wxga), Mobile) == Ok(Coordinate(0, 13, Mobile))
      && !ReturnsWithinOne(m, Coordinate(0, 11, Mobile))
  {
    LetterboxMetadataCases();
  }

  /** A source far narrower than tall letterboxed into a square: the content is zero
      pixels wide, so `scaled_width - 1` is -1 and the forward transform sends column 0
      to column 50 and column 1 to column 49, reversing their order. */
  lemma EmptyContentReversesOrder()
    ensures var m := ComputeLetterboxMetadata(Space(2, 10000), Small);
      && m.scaledWidth == 0 && m.offsetX == 50
      && ForwardTransformCoordinate(m, Coordinate(0, 0, Space(2, 10000))) == Ok(Coordinate(50, 0, Small))
      && ForwardTransformCoordinate(m, Coordinate(1, 0, Space(2, 10000))) == Ok(Coordinate(49, 0, Small))
  {
  }

  // ---------------------------------------------------------------------------
  // Padding and the two branches of Coordinate.to_space

  /** Clicks in or next to the padding bars land on the nearest source edge. */
  lemma PaddingCases()
    ensures TransformCoordinate(ComputeLetterboxMetadata(Hd, Square), Coordinate(512, 0, Square), Hd).value.y == 0
    ensures TransformCoordinate(ComputeLetterboxMetadata(Hd, Square), Coordinate(512, 1023, Square), Hd).value.y == 1079
    ensures Resize.ToSpace(Coordinate(0, 0, Square), Hd, Some(ComputeLetterboxMetadata(Hd, Square))) == Ok(Coordinate(0, 0, Hd))
    ensures TransformCoordinate(ComputeLetterboxMetadata(Mobile, Wxga), Coordinate(0, 384, Wxga), Mobile).value.x == 0
    ensures TransformCoordinate(ComputeLetterboxMetadata(Mobile, Wxga), Coordinate(1365, 384, Wxga), Mobile).value.x == 1079
    ensures TransformCoordinate(ComputeLetterboxMetadata(Mobile, Xga), Coordinate(0, 384, Xga), Mobile).value.x == 0
    ensures TransformCoordinate(ComputeLetterboxMetadata(Mobile, Xga), Coordinate(1023, 384, Xga), Mobile).value.x == 1079
  {
    LetterboxMetadataCases();
    LetterboxPaddingClamp(Hd, Square, Coordinate(512, 0, Square));
    LetterboxPaddingClamp(Hd, Square, Coordinate(512, 1023, Square));
    LetterboxPaddingClamp(Hd, Square, Coordinate(0, 0, Square));
    LetterboxPaddingClamp(Mobile, Wxga, Coordinate(0, 384, Wxga));
    LetterboxPaddingClamp(Mobile, Wxga, Coordinate(1365, 384, Wxga));
    LetterboxPaddingClamp(Mobile, Xga, Coordinate(0, 384, Xga));
    LetterboxPaddingClamp(Mobile, Xga, Coordinate(1023, 384, Xga));
  }

  /** With letterbox metadata, the square's (200, 300) lies 76 rows into the content and
      goes to row 143; the plain ratio remap ignores the bar and gives row 316. */
  lemma MetadataOverridesRatio()
    ensures Resize.ToSpace(Coordinate(200, 300, Square), Hd, Some(ComputeLetterboxMetadata(Hd, Square)))
         == Ok(Coordinate(375, 143, Hd))
    ensures Resize.ToSpace(Coordinate(200, 300, Square), Hd, None) == Ok(Coordinate(375, 316, Hd))
  {
    LetterboxMetadataCases();
  }

  // ---------------------------------------------------------------------------
  // Boxes

  /** The box (50, 100, 200 x 300) of HD: its corners, centre, local space,
      containment, and the localize / absolutize pair. */
  lemma BoxCases()
    ensures var b := BBox(50, 100, 200, 300, Hd);
      && NewBBox(50, 100, 200, 300, Hd) == Ok(b)
      && TopLeft(b) == Coordinate(50, 100, Hd)
      && BottomRight(b) == Coordinate(249, 399, Hd)
      && Center(b) == Coordinate(150, 250, Hd)
      && AsSpace(b) == Space(200, 300)
      && Contains(b, Coordinate(150, 250, Hd)) && Contains(b, Coordinate(50, 100, Hd))
      && !Contains(b, Coordinate(300, 500, Hd))
      && Localize(b, Coordinate(100, 200, Hd)) == Ok(Coordinate(50, 100, Space(200, 300)))
      && Absolutize(b, Coordinate(50, 100, Space(200, 300))) == Ok(Coordinate(100, 200, Hd))
  {
  }

  /** Boxes of no width, negative height, or sticking out of the space are rejected. */
  lemma InvalidBoxCases()
    ensures NewBBox(10, 20, 100, 200, Hd).Ok?
    ensures NewBBox(0, 0, 0, 100, Hd) == Err(InvalidDimensions)
    ensures NewBBox(0, 0, 100, -1, Hd) == Err(InvalidDimensions)
    ensures NewBBox(50, 0, 60, 10, Small) == Err(OutOfBounds)
    ensures NewBBox(0, 90, 10, 20, Small) == Err(OutOfBounds)
  {
  }

  /** Halving HD by the ratio remap halves a box: corners (100, 200) and (499, 499) go
      to (50, 100) and (249, 249). Boxes of the square screenshot always map back to
      HD through either kind of metadata. */
  lemma BoxToSpaceCases(b: BBox)
    requires b.Valid() && b.space == Square
    ensures Boxes.ToSpace(BBox(100, 200, 400, 300, Hd), Half, None) == Ok(BBox(50, 100, 200, 150, Half))
    ensures Boxes.ToSpace(b, Hd, Some(ComputeLetterboxMetadata(Hd, Square))).Ok?
    ensures Boxes.ToSpace(b, Hd, Some(ComputeStretchMetadata(Hd, Square))).Ok?
  {
  }

  /** A window of the 2560 x 1440 screen captured at HD and letterboxed or stretched to
      a square: the square's centre maps to the window's centre (960, 540) and then to
      the screen's (1010, 640). The window's local space is HD itself, so the metadata
      is the same whether computed from the window or from the screenshot. */
  lemma WindowToScreen()
    ensures var window := BBox(50, 100, 1920, 1080, Screen);
      && AsSpace(window) == Hd
      && Resize.ToSpace(Coordinate(512, 512, Square), Hd, Some(ComputeLetterboxMetadata(Hd, Square)))
         == Ok(Coordinate(960, 540, Hd))
      && Resize.ToSpace(Coordinate(512, 512, Square), Hd, Some(ComputeStretchMetadata(Hd, Square)))
         == Ok(Coordinate(960, 540, Hd))
      && Absolutize(window, Coordinate(960, 540, Hd)) == Ok(Coordinate(1010, 640, Screen))
  {
    LetterboxMetadataCases();
  }
}
