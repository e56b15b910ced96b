# Screenshot coordinate spaces, in Dafny

A model of the coordinate-space algebra of `gui_agent_screenshot_tools`. A GUI agent
sees a screenshot that has been resized, either stretched to fill a target size or
letterboxed into it (scaled uniformly and centred between black bars). The library
maps pixels between the original and the resized image, and from a window's own
pixels onto the screen. It is built from four immutable values:

- `Space` is a pixel grid with positive width and height (module `Spaces`).
- `Coordinate` is a pixel inside a space. Its `to_space` remaps a pixel by the
  pixel-centre ratio `(dim - 1)` (module `Coordinates`).
- `ResizeMetadata` records how a source space was resized into a target space. It
  has a factory for each mode, a forward transform (source to target) and an inverse
  transform. The inverse snaps clicks in the letterbox bars to the nearest source
  edge and can remap onward into a third space (module `Resize`).
- `BBox` is a rectangle inside a space. It has corner and centre views, its own
  local space, containment, localize and absolutize, and a corner-wise `to_space`
  (module `Boxes`).

Supporting modules:

- `Results` holds the construction errors and a `Result` type. Each validator that
  raises in the library returns `Err` here.
- `Rounding` holds Python's `round` on an exact quotient (round half to even) and the
  `min(max(v, 0), hi)` clamp.
- `Scenarios` instantiates the model on the spaces, pixels and boxes that the
  library's test suite uses.

The model computes on exact integers and rationals; each `round(a * b / c)` becomes
`RoundHalfEven(a * b, c)`.

What is proved, in short:

- Every constructor accepts exactly the values its validator accepts.
- Every transform lands inside its target space.
- Corners map to corners.
- The ratio remap, the inverse transform and `to_space` keep pixel order. The forward
  letterbox does not when the content on an axis is empty, as in the code
  (`Scenarios.EmptyContentReversesOrder`).
- The letterbox content fits the target, centred, with the scale as the smaller
  axis ratio.
- Padding clicks clamp to the source edges.
- Localize and absolutize are exact inverses.
- `BBox.to_space` never fails validation.
- Forward then inverse returns each pixel to within one pixel per axis, whenever
  an axis shrinks less than threefold (see below).

## One-pixel axes and the round trip

- **One-pixel axes.** Four divisions by `dim - 1` have no guard:
  - the ratio remap of `Coordinate.to_space` (`coordinate.py:32-33`);
  - the inverse stretch (`resize.py:29-30`);
  - the onward remap of `transform_coordinate` (`resize.py:44-45`);
  - the forward stretch (`resize.py:58-59`).

  On a one-pixel axis each of them raises `ZeroDivisionError`. The model returns
  `Err(DivisionByZero)` on exactly those paths, and `Resize.InverseDefined` and
  `Resize.CanMap` state when this happens. The letterbox paths do guard their
  division. There a one-pixel source axis goes to the offset, and content at most one
  pixel wide comes back as 0 (`Resize.LetterboxForwardAxis`,
  `Resize.LetterboxInverseAxis`).
- **The round trip.** The test suite checks that forward then inverse returns a pixel
  to within one pixel per axis. It does so at chosen points: corners, centres and
  one interior pixel (`tests/test_resize.py:68-74` and `176-247`,
  `tests/test_integration.py:60-71` and `74-115`). The model proves this for every
  pixel, but only when an axis shrinks less than threefold.
  - The precise condition is `Resize.Recoverable`: `dim - 1 < 3 * (content - 1)`,
    where content is the target dimension for stretch and the scaled dimension for
    letterbox.
  - When an axis shrinks more, four consecutive source rows can share one target
    row, and no inverse can return all four to within one. Letterboxing the
    1080 x 2400 mobile screenshot into 1366 x 768 sends rows 11 to 14 to row 4, and
    row 4 comes back as row 13 (`Scenarios.MobileRowsCollapse`).
  - The corners and centres that the test suite checks in that case do return to
    within one pixel (`Scenarios.MobileRoundTrips`).

## Model

| member | source | states |
|---|---|---|
| `Spaces.NewSpace` | src/gui_agent_screenshot_tools/space.py:8-12 | A space is constructed iff both dimensions are positive. It then holds exactly the given width and height. Otherwise the error is invalid dimensions. |
| `Spaces.AspectRatio` | src/gui_agent_screenshot_tools/space.py:14-16 | The aspect ratio is the positive rational r with r * height = width. It is 1 iff the space is square. |
| `Spaces.SpaceEquality` | src/gui_agent_screenshot_tools/space.py:4-6 | Two spaces are equal iff their widths and their heights agree. |
| `Rounding.RoundHalfEven` | src/gui_agent_screenshot_tools/coordinate.py:32-33 | Python's `round(n / d)` gives an integer r within 1/2 of n/d, stated as -d <= 2(n - d·r) <= d. Of two equally near integers it is the even one. |
| `Rounding.RoundHalfEvenUnique` | src/gui_agent_screenshot_tools/coordinate.py:32-33 | Any integer that is nearest to n/d and even on a tie equals `RoundHalfEven(n, d)`, so the rounding is fully determined by its contract. |
| `Rounding.RoundHalfEvenMonotone` | src/gui_agent_screenshot_tools/coordinate.py:32-33 | Rounding over one divisor never reverses the order of two numerators. |
| `Rounding.RoundTripWithinOne` | src/gui_agent_screenshot_tools/resize.py:21-68 | Take x in [0, S]. Scale it by C/S and round, then scale it back by S/C and round again. Both values stay in range, and the result is within 1 of x, whenever S < 3C. |
| `Rounding.Clamp` | src/gui_agent_screenshot_tools/coordinate.py:34-35 | `min(max(v, 0), hi)` lies in [0, hi]. It is v when v is in range, 0 at or below 0, and hi at or above hi. |
| `Coordinates.NewCoordinate` | src/gui_agent_screenshot_tools/coordinate.py:18-24 | A coordinate is constructed iff 0 <= x < width and 0 <= y < height. It then holds the given position. Otherwise the error is out of bounds. |
| `Coordinates.RatioAxis` | src/gui_agent_screenshot_tools/coordinate.py:32-35 | One axis of the pixel-centre remap always lands in [0, to - 1]. |
| `Coordinates.RatioAxisNearest` | src/gui_agent_screenshot_tools/coordinate.py:32-33 | For a pixel inside the axis the clamp never acts. The result equals `RoundHalfEven(p * (to - 1), from - 1)`, Python's `round` of p * (to - 1) / (from - 1): the nearest integer, with a tie going to the even one. |
| `Coordinates.RatioAxisEndpoints` | src/gui_agent_screenshot_tools/coordinate.py:32-35 | The first pixel maps to the first pixel, and the last to the last. |
| `Coordinates.RatioAxisIdentity` | src/gui_agent_screenshot_tools/coordinate.py:32-35 | Remapping onto an axis of the same length is the identity. |
| `Coordinates.RatioAxisMonotone` | src/gui_agent_screenshot_tools/coordinate.py:32-35 | The remap keeps the order of two pixels on an axis. |
| `Coordinates.RatioToSpace` | src/gui_agent_screenshot_tools/coordinate.py:31-36 | `to_space` without metadata fails iff its own space is one pixel wide or high, and then the error is division by zero. Otherwise it returns the valid target coordinate whose x and y are `RatioAxis` of each axis, so construction never fails. |
| `Coordinates.RatioToSpaceIdentity` | src/gui_agent_screenshot_tools/coordinate.py:31-36 | For a space of more than one pixel on each axis, remapping a coordinate into its own space returns it unchanged. A one-pixel axis divides by zero instead. |
| `Coordinates.RatioToSpaceCorners` | src/gui_agent_screenshot_tools/coordinate.py:31-36 | For a source of more than one pixel on each axis, (0, 0) maps to (0, 0), and (w - 1, h - 1) maps to (tw - 1, th - 1). |
| `Coordinates.RatioToSpaceMonotone` | src/gui_agent_screenshot_tools/coordinate.py:31-36 | The remap keeps the order of two coordinates on each axis. |
| `Resize.ComputeStretchMetadata` | src/gui_agent_screenshot_tools/resize.py:89-99 | Stretch metadata copies both spaces and has mode stretch, both offsets 0, the scaled size equal to the target, and scale 1. |
| `Resize.ComputeLetterboxMetadata` | src/gui_agent_screenshot_tools/resize.py:71-86 | Letterbox metadata has mode letterbox and copies both spaces. The limiting axis is width iff tw/sw <= th/sh (a tie goes to width, as with `min`), and its scaled dimension is the whole target dimension. |
| `Resize.LetterboxScaleIsMin` | src/gui_agent_screenshot_tools/resize.py:72 | The scale is at most both axis ratios and equal to one of them, so it is their minimum. |
| `Resize.LetterboxFits` | src/gui_agent_screenshot_tools/resize.py:72-76 | Both scaled dimensions lie in [0, target], and both offsets are >= 0. On each axis, 2 * offset + scaled is the target or the target - 1, so the content is centred and the far bar is at most one pixel larger. At least one offset is 0. |
| `Resize.LetterboxScaledIsRounded` | src/gui_agent_screenshot_tools/resize.py:73-74 | Each scaled dimension is within half a pixel of the source dimension times the scale. |
| `Resize.LetterboxSameRatio` | src/gui_agent_screenshot_tools/resize.py:72-76 | With equal aspect ratios, both offsets are 0 and the scaled size is the target size. |
| `Resize.LetterboxForwardAxis` | src/gui_agent_screenshot_tools/resize.py:63-67 | One forward letterbox axis always lands inside the target axis. A one-pixel source axis skips the division and goes straight to the offset, when the offset is inside the target. |
| `Resize.LetterboxInverseAxis` | src/gui_agent_screenshot_tools/resize.py:34-38 | One inverse letterbox axis always lands inside the source axis. When the content is at most one pixel wide, the division is skipped and every pixel goes to 0. |
| `Resize.LetterboxInverseAxisMonotone` | src/gui_agent_screenshot_tools/resize.py:34-38 | The inverse axis keeps the order of two target pixels. |
| `Resize.LetterboxInverseAxisPadding` | src/gui_agent_screenshot_tools/resize.py:34-38 | A pixel at or before the offset goes to 0. A pixel at or after the content's last pixel goes to the source's last pixel, provided the content is wider than one pixel (the code gives 0 otherwise). |
| `Resize.LetterboxForwardAxisEndpoints` | src/gui_agent_screenshot_tools/resize.py:63-64 | For a source axis of more than one pixel, with content at least one pixel wide that fits the target axis, the first source pixel goes to the offset and the last to offset + scaled - 1. |
| `Resize.LetterboxAxisRoundTrip` | src/gui_agent_screenshot_tools/resize.py:21-68 | On a Recoverable axis, forward then inverse letterbox moves a pixel by at most one. |
| `Resize.StretchAxisRoundTrip` | src/gui_agent_screenshot_tools/resize.py:21-68 | On a Recoverable axis, stretching there and back moves a pixel by at most one. |
| `Resize.ForwardTransformCoordinate` | src/gui_agent_screenshot_tools/resize.py:50-68 | The forward transform fails iff it is a stretch from a one-pixel source axis, with division by zero. Otherwise it returns a valid coordinate of the target space. |
| `Resize.TransformCoordinate` | src/gui_agent_screenshot_tools/resize.py:21-48 | The inverse transform fails iff `InverseDefined` is false, with division by zero. That happens for a stretch onto a one-pixel target axis, or an onward remap from a one-pixel source axis. Otherwise it returns a valid coordinate of the requested space. |
| `Resize.TransformOntoOtherSpace` | src/gui_agent_screenshot_tools/resize.py:40-48 | Into a space other than the source, the inverse is `Coordinate.to_space`'s ratio remap of the pixel mapped back into the source. |
| `Resize.TransformCoordinateMonotone` | src/gui_agent_screenshot_tools/resize.py:21-48 | The inverse transform keeps the order of two coordinates on each axis. |
| `Resize.ToSpace` | src/gui_agent_screenshot_tools/coordinate.py:26-36 | With metadata, `to_space` is that metadata's `transform_coordinate`; without it, it is the ratio remap. It fails iff `CanMap` is false, with division by zero. Otherwise the result is a valid coordinate of the target. |
| `Resize.ToSpaceMonotone` | src/gui_agent_screenshot_tools/coordinate.py:26-36 | `to_space` keeps the order of two coordinates of one space on each axis. |
| `Resize.StretchCorners` | src/gui_agent_screenshot_tools/resize.py:21-68 | Under stretch, for a source of more than one pixel on each axis, the source corners go to the target corners, one-pixel target axes included. When both target axes are wider than one pixel, the target corners come back to the source corners. |
| `Resize.LetterboxCorners` | src/gui_agent_screenshot_tools/resize.py:50-68 | Under letterbox, the source's first pixel goes to (offsetX, offsetY) for any pair of spaces, one-pixel axes included. When both source axes are wider than one pixel and the content is not empty, the last pixel goes to the content's last pixel. |
| `Resize.LetterboxPaddingClamp` | src/gui_agent_screenshot_tools/resize.py:31-41 | A click in a left or top bar (or on its edge) maps back to source column or row 0. One in a right or bottom bar maps to the last source column or row, provided the content is wider than one pixel on that axis or the source axis is one pixel (otherwise the code gives 0). |
| `Resize.StretchRoundTrip` | src/gui_agent_screenshot_tools/resize.py:21-68 | When both axes are Recoverable, stretch forward then inverse returns every source pixel to within one pixel per axis. |
| `Resize.LetterboxRoundTrip` | src/gui_agent_screenshot_tools/resize.py:21-68 | When both axes are Recoverable against the scaled size, letterbox forward then inverse returns every source pixel to within one pixel per axis. |
| `Boxes.NewBBox` | src/gui_agent_screenshot_tools/bbox.py:21-35 | A box is constructed iff w > 0, h > 0, x >= 0, y >= 0, x + w <= width and y + h <= height. It then holds the given fields. A non-positive size is reported as invalid dimensions, and anything else as out of bounds. |
| `Boxes.Contains` | src/gui_agent_screenshot_tools/bbox.py:76-80 | `contains` is the inclusive test between the top-left and bottom-right pixels on both axes. |
| `Boxes.TopLeft` | src/gui_agent_screenshot_tools/bbox.py:37-39 | The top-left pixel is (x, y), a valid coordinate of the box's space. |
| `Boxes.BottomRight` | src/gui_agent_screenshot_tools/bbox.py:41-47 | The bottom-right pixel is a valid coordinate of the box's space, exactly width by height pixels from the top-left, inclusive. |
| `Boxes.Center` | src/gui_agent_screenshot_tools/bbox.py:49-55 | The centre is a valid coordinate inside the box, floor(w/2) and floor(h/2) from the top-left. It splits each side into halves that differ by at most one. |
| `Boxes.CornersInside` | src/gui_agent_screenshot_tools/bbox.py:37-47 | Both corner views lie inside the box. |
| `Boxes.AsSpace` | src/gui_agent_screenshot_tools/bbox.py:57-59 | The local space is a valid space of the box's width and height. |
| `Boxes.Localize` | src/gui_agent_screenshot_tools/bbox.py:82-85 | `localize` succeeds iff the box contains the coordinate. It then subtracts the box's (x, y) and yields a valid coordinate of the local space. Otherwise the error is out of bounds. |
| `Boxes.Absolutize` | src/gui_agent_screenshot_tools/bbox.py:87-90 | `absolutize` adds the box's (x, y) and places the result in the parent space. It never fails for a coordinate of the local space, and the result then lies in the box. |
| `Boxes.AbsolutizeLocalize` | src/gui_agent_screenshot_tools/bbox.py:82-90 | `absolutize(localize(c)) == c` for every c of the parent space inside the box. |
| `Boxes.LocalizeAbsolutize` | src/gui_agent_screenshot_tools/bbox.py:82-90 | `localize(absolutize(l)) == l` for every l of the local space. |
| `Boxes.ToSpace` | src/gui_agent_screenshot_tools/bbox.py:61-74 | `to_space` fails only when its corner transforms divide by zero. Otherwise the rebuilt box always passes validation in the target, and its corners are the transformed corners. |
| `Scenarios.SpaceCases` | tests/test_space.py:8-62 | These spaces are accepted: 1920 x 1080. These are rejected: 0 x 100, 100 x 0, -1 x 100 and 100 x -1. 100 x 200 differs from 200 x 100. Aspect ratios are 1 for a square, 16/9 for HD and 9/16 for portrait. |
| `Scenarios.CoordinateCases` | tests/test_coordinate.py:21-49 | In a 100 x 100 space, (0, 0) and (99, 99) construct. 100 and -1 on either axis are rejected. |
| `Scenarios.RatioRemapCases` | tests/test_coordinate.py:53-71 | (50, 50) of 100 x 100 maps to (101, 101) of 200 x 200. (100, 100) maps back to (50, 50). The origin stays the origin. |
| `Scenarios.StretchMetadataCase` | tests/test_resize.py:42-66 | The stretch metadata for HD to 1024 x 1024 is given field by field. The HD centre (960, 540) goes to (512, 512), and (512, 512) comes back to (960, 540). |
| `Scenarios.LetterboxMetadataCases` | tests/test_resize.py:77-229 | The letterbox metadata is given field by field for HD, portrait and mobile screenshots into square, WXGA, XGA and half-HD targets. |
| `Scenarios.HdSquareRoundTrips` | tests/test_integration.py:74-115 | For HD to square, in both modes, every pixel returns to within one, including the corners and centres the test suite checks. |
| `Scenarios.MobileRoundTrips` | tests/test_resize.py:176-247 | For mobile letterboxed into WXGA and XGA, the four corners and the centre return to within one. So does the centre under stretch into WXGA, the case of tests/test_integration.py:159-166. |
| `Scenarios.MobileRowsCollapse` | src/gui_agent_screenshot_tools/resize.py:21-68 | Letterboxing mobile into WXGA sends rows 11 to 14 to row 4, which comes back as row 13. Row 11 does not return to within one pixel. |
| `Scenarios.EmptyContentReversesOrder` | src/gui_agent_screenshot_tools/resize.py:61-67 | Letterboxing 2 x 10000 into 100 x 100 gives content 0 pixels wide at offset 50. The forward transform then sends column 0 to 50 and column 1 to 49, so it does not keep order. |
| `Scenarios.PaddingCases` | tests/test_resize.py:194-274 | The test suite's clicks in the bars of HD to square, mobile to WXGA and mobile to XGA land on the source edges. That includes the `to_space` click at the origin of tests/test_integration.py:231-244, which lands on (0, 0). |
| `Scenarios.MetadataOverridesRatio` | tests/test_coordinate.py:86-94 | Square (200, 300) maps to HD (375, 143) with letterbox metadata and to (375, 316) without it. |
| `Scenarios.BoxCases` | tests/test_bbox.py:37-147 | For the box (50, 100, 200 x 300), the corners, centre, local space, containment, localize and absolutize take the values the test suite expects. |
| `Scenarios.InvalidBoxCases` | tests/test_bbox.py:7-28 | The test suite's boxes with zero width, negative height or edges beyond the space are rejected, with the right error. |
| `Scenarios.BoxToSpaceCases` | tests/test_bbox.py:70-97 | (100, 200, 400 x 300) of HD maps to (50, 100, 200 x 150) of 960 x 540. Any box of the square maps back to HD through either mode's metadata. |
| `Scenarios.WindowToScreen` | tests/test_integration.py:247-313 | The square's centre maps to the window pixel (960, 540) in both modes, and then to the screen pixel (1010, 640). The window's local space is HD. |

## Left out

- `screenshot.py` is not modelled. It decodes and encodes PNG through PIL, resamples with LANCZOS and pastes onto a black canvas. Its only logic, choosing the metadata factory by mode, is a single dispatch.
- `ResizeMode` is declared in a module that is not part of this model. Here it is a two-constructor datatype.
- Pydantic and dataclass machinery is not modelled: frozen fields, hashing, and the difference between `ValidationError` and `ValueError`. Each raise becomes one `Error` constructor, and the messages are dropped.
- `Resize.ComputeLetterboxMetadata` computes on exact rationals, where the library uses double-precision floats. `scale` is an exact `real`, and the limiting axis is chosen by cross-multiplication. If `source_dim * scale` falls exactly on a half in rationals, the float product may round to the other neighbour.
- `Spaces.AspectRatio` is the exact rational width / height, not a double.
- Every `round(a * b / c)` is rounded on the exact quotient. An int / int quotient of screen-sized integers rounds the same way as the double quotient.
- `Resize.TransformCoordinate`, `Resize.ForwardTransformCoordinate` and `Boxes.Contains` do not check which space the input coordinate belongs to, and neither does the library. The laws that need matching spaces state it as a hypothesis.
- `Resize.StretchRoundTrip` and `Resize.LetterboxRoundTrip` state the one-pixel round trip, which the tests check at chosen points, for every pixel. They assume each axis is `Recoverable`, because without that the law is false (`Scenarios.MobileRowsCollapse`).
- `__init__.py` only re-exports names, and `conftest.py` only supplies fixtures. Neither is part of this model.
