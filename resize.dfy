/** `ResizeMetadata`: how the content of a source space was resized into a target
    space (stretched to fill it, or letterboxed: scaled uniformly and centred between
    padding bars), the two factories that compute it, and the forward and inverse
    coordinate transforms it supports. */
module Resize {
  import opened Results
  import opened Rounding
  import opened Spaces
  import opened Coordinates

  datatype ResizeMode = Stretch | Letterbox

  /** The content of `sourceSpace` occupies the `scaledWidth` x `scaledHeight`
      rectangle at (`offsetX`, `offsetY`) of `targetSpace`; the rest is padding.
      `scale` is a floating-point number in the library, an exact rational here. */
  datatype ResizeMetadata = ResizeMetadata(
    sourceSpace: Space,
    targetSpace: Space,
    mode: ResizeMode,
    scale: real,
    offsetX: int,
    offsetY: int,
    scaledWidth: int,
    scaledHeight: int)
  {
    /** Both spaces are constructed (validated) spaces. */
    predicate Valid() {
      sourceSpace.Valid() && targetSpace.Valid()
    }
  }

  // ---------------------------------------------------------------------------
  // Factories

  /** `compute_stretch_metadata`: the content fills the whole target, with no
      padding and a nominal scale of 1. */
  function ComputeStretchMetadata(source: Space, target: Space): (m: ResizeMetadata)
    requires source.Valid() && target.Valid()
    ensures m.Valid() && m.mode == Stretch
    ensures m.sourceSpace == source && m.targetSpace == target
    ensures m.offsetX == 0 && m.offsetY == 0
    ensures m.scaledWidth == target.width && m.scaledHeight == target.height
    ensures m.scale == 1.0
  {
    ResizeMetadata(source, target, Stretch, 1.0, 0, 0, target.width, target.height)
  }

  /** The width is the limiting axis of a letterbox exactly when
      target.width / source.width <= target.height / source.height (the library's
      `min` keeps its first argument on a tie). */
  predicate WidthLimited(source: Space, target: Space)
    requires source.Valid() && target.Valid()
  {
    target.width * source.height <= target.height * source.width
  }

  /** `compute_letterbox_metadata`: the scale is the smaller of the two axis ratios;
      the limiting axis is scaled to the full target dimension, the other one to the
      rounded product of its source dimension and the scale; each offset is half of
      the space left on its axis, rounded down. */
  function ComputeLetterboxMetadata(source: Space, target: Space): (m: ResizeMetadata)
    requires source.Valid() && target.Valid()
    ensures m.Valid() && m.mode == Letterbox
    ensures m.sourceSpace == source && m.targetSpace == target
    ensures WidthLimited(source, target) ==> m.scaledWidth == target.width
    ensures !WidthLimited(source, target) ==> m.scaledHeight == target.height
  {
    var tw, th, sw, sh := target.width, target.height, source.width, source.height;
    var widthLimited := WidthLimited(source, target);
    var scale := if widthLimited then tw as real / sw as real else th as real / sh as real;
    var scaledW := if widthLimited then tw else RoundHalfEven(sw * th, sh);
    var scaledH := if widthLimited then RoundHalfEven(sh * tw, sw) else th;
    ResizeMetadata(source, target, Letterbox, scale,
                   (tw - scaledW) / 2, (th - scaledH) / 2, scaledW, scaledH)
  }

  /** The letterbox scale is the smaller of the two axis ratios, and the limiting
      axis (the one whose ratio it is) is scaled to the full target dimension. */
  lemma LetterboxScaleIsMin(source: Space, target: Space)
    requires source.Valid() && target.Valid()
    ensures var m := ComputeLetterboxMetadata(source, target);
      && m.scale <= target.width as real / source.width as real
      && m.scale <= target.height as real / source.height as real
      && (m.scale == target.width as real / source.width as real
          || m.scale == target.height as real / source.height as real)
  {
    RatioOrder(target.width, source.width, target.height, source.height);
  }

  /** Comparing two ratios of positive integers by cross-multiplication. */
  lemma RatioOrder(a: int, b: int, c: int, d: int)
    requires b > 0 && d > 0
    ensures a * d <= c * b <==> a as real / b as real <= c as real / d as real
  {
    var x, y := a as real / b as real, c as real / d as real;
    assert x * b as real == a as real;
    assert y * d as real == c as real;
    assert (a * d) as real == x * (b as real * d as real);
    assert (c * b) as real == y * (b as real * d as real);
    RealScaleOrder(x, y, b as real * d as real);
  }

  /** Multiplying by a positive real keeps and reflects order. */
  lemma RealScaleOrder(x: real, y: real, k: real)
    requires k > 0.0
    ensures x * k <= y * k <==> x <= y
  {
    if x <= y {
      assert y * k - x * k == (y - x) * k;
    } else {
      assert x * k - y * k == (x - y) * k;
    }
  }

  /** The letterbox content fits the target and is centred on it: every scaled
      dimension lies in [0, target], every offset is non-negative, the two bars of an
      axis differ by at most one pixel (the far bar being the larger), and at least
      one axis has no padding at all. */
  lemma LetterboxFits(source: Space, target: Space)
    requires source.Valid() && target.Valid()
    ensures var m := ComputeLetterboxMetadata(source, target);
      && 0 <= m.scaledWidth <= target.width
      && 0 <= m.scaledHeight <= target.height
      && m.offsetX >= 0 && m.offsetY >= 0
      && (2 * m.offsetX + m.scaledWidth == target.width || 2 * m.offsetX + m.scaledWidth == target.width - 1)
      && (2 * m.offsetY + m.scaledHeight == target.height || 2 * m.offsetY + m.scaledHeight == target.height - 1)
      && (m.offsetX == 0 || m.offsetY == 0)
  {
    var tw, th, sw, sh := target.width, target.height, source.width, source.height;
    if WidthLimited(source, target) {
      RoundHalfEvenExact(0, sw);
      MulMonotone(0, sh, tw);
      RoundHalfEvenMonotone(0 * sw, sh * tw, sw);
      assert sh * tw <= th * sw;
      RoundHalfEvenMonotone(sh * tw, th * sw, sw);
      RoundHalfEvenExact(th, sw);
    } else {
      RoundHalfEvenExact(0, sh);
      MulMonotone(0, sw, th);
      RoundHalfEvenMonotone(0 * sh, sw * th, sh);
      assert sw * th < tw * sh;
      RoundHalfEvenMonotone(sw * th, tw * sh, sh);
      RoundHalfEvenExact(tw, sh);
    }
  }

  /** `scaled` is within half a pixel of the exact product `length * scale`. */
  predicate WithinHalf(scaled: int, length: int, scale: real) {
    -0.5 <= scaled as real - length as real * scale <= 0.5
  }

  /** Each scaled dimension is the source dimension times the scale, rounded: within
      half a pixel of the exact product. */
  lemma LetterboxScaledIsRounded(source: Space, target: Space)
    requires source.Valid() && target.Valid()
    ensures var m := ComputeLetterboxMetadata(source, target);
      WithinHalf(m.scaledWidth, source.width, m.scale) && WithinHalf(m.scaledHeight, source.height, m.scale)
  {
    var m := ComputeLetterboxMetadata(source, target);
    var tw, th, sw, sh := target.width, target.height, source.width, source.height;
    if WidthLimited(source, target) {
      assert m.scale == tw as real / sw as real;
      assert m.scaledWidth == tw && m.scaledHeight == RoundHalfEven(sh * tw, sw);
      LimitingAndRoundedAxes(sw, sh, tw, m.scale, m.scaledWidth, m.scaledHeight);
    } else {
      assert m.scale == th as real / sh as real;
      assert m.scaledHeight == th && m.scaledWidth == RoundHalfEven(sw * th, sh);
      LimitingAndRoundedAxes(sh, sw, th, m.scale, m.scaledHeight, m.scaledWidth);
    }
  }

  /** One letterbox in axis-neutral terms, with scale t / lim: the limiting axis
      (source length `lim`) is scaled to the target length `t`, the other axis (source
      length `other`) to RoundHalfEven(other * t, lim); both are within a half of
      their source length times the scale. */
  lemma LimitingAndRoundedAxes(lim: int, other: int, t: int, scale: real, scaledLim: int, scaledOther: int)
    requires lim > 0 && scale == t as real / lim as real
    requires scaledLim == t && scaledOther == RoundHalfEven(other * t, lim)
    ensures WithinHalf(scaledLim, lim, scale) && WithinHalf(scaledOther, other, scale)
  {
    RealCancel(t, lim);
    ScaledByRatio(other, t, lim);
  }

  /** b * (a / b) == a in the reals. */
  lemma RealCancel(a: int, b: int)
    requires b > 0
    ensures b as real * (a as real / b as real) == a as real
  {
  }

  /** RoundHalfEven(a * n, d) is within a half of a times the real ratio n / d. */
  lemma ScaledByRatio(a: int, n: int, d: int)
    requires d > 0
    ensures -0.5 <= RoundHalfEven(a * n, d) as real - a as real * (n as real / d as real) <= 0.5
  {
    RoundIsNearest(a * n, d);
    assert a as real * (n as real / d as real) == (a * n) as real / d as real;
  }

  /** RoundHalfEven(n, d) is within a half of the real quotient n / d. */
  lemma RoundIsNearest(n: int, d: int)
    requires d > 0
    ensures -0.5 <= RoundHalfEven(n, d) as real - n as real / d as real <= 0.5
  {
    WithinHalfOfQuotient(n, d, RoundHalfEven(n, d));
  }

  /** An integer r with |2 (n - d r)| <= d is within a half of the real n / d. */
  lemma WithinHalfOfQuotient(n: int, d: int, r: int)
    requires d > 0 && -d <= 2 * (n - d * r) <= d
    ensures -0.5 <= r as real - n as real / d as real <= 0.5
  {
    QuotientSplit(n, d, r);
    HalfFraction(n - d * r, d);
  }

  /** A fraction e / d with |2 e| <= d lies in [-1/2, 1/2]. */
  lemma HalfFraction(e: int, d: int)
    requires d > 0 && -d <= 2 * e <= d
    ensures -0.5 <= e as real / d as real <= 0.5
  {
    var k := d as real;
    var q := e as real / k;
    assert q * k == e as real;
    assert e as real <= 0.5 * k && -0.5 * k <= e as real;
    RealScaleOrder(q, 0.5, k);
    RealScaleOrder(-0.5, q, k);
  }

  /** n / d splits into an integer r and the fraction (n - d * r) / d. */
  lemma QuotientSplit(n: int, d: int, r: int)
    requires d > 0
    ensures n as real / d as real == r as real + (n - d * r) as real / d as real
  {
    var k := d as real;
    var q := (n - d * r) as real / k;
    var x := n as real / k;
    assert q * k == (n - d * r) as real;
    assert x * k == n as real;
    assert (r as real + q) * k == r as real * k + q * k;
    RealScaleOrder(x, r as real + q, k);
    RealScaleOrder(r as real + q, x, k);
  }

  /** With equal aspect ratios the content fills the target: no padding. */
  lemma LetterboxSameRatio(source: Space, target: Space)
    requires source.Valid() && target.Valid()
    requires target.width * source.height == target.height * source.width
    ensures var m := ComputeLetterboxMetadata(source, target);
      && m.offsetX == 0 && m.offsetY == 0
      && m.scaledWidth == target.width && m.scaledHeight == target.height
  {
    assert source.height * target.width == target.height * source.width;
    RoundHalfEvenExact(target.height, source.width);
  }

  // ---------------------------------------------------------------------------
  // Per-axis transforms

  /** One axis of the letterbox forward transform: scale by (scaled - 1) / (dim - 1),
      round, shift by the offset, clamp into the target axis. A one-pixel source axis
      goes straight to the offset. */
  function LetterboxForwardAxis(p: int, dim: int, scaled: int, offset: int, targetDim: int): (r: int)
    requires dim > 0 && targetDim > 0
    ensures 0 <= r < targetDim
    ensures dim == 1 && 0 <= offset < targetDim ==> r == offset
  {
    var raw := if dim - 1 > 0 then RoundHalfEven(p * (scaled - 1), dim - 1) + offset else offset;
    Clamp(raw, targetDim - 1)
  }

  /** One axis of the letterbox inverse transform: remove the offset, scale by
      (dim - 1) / (scaled - 1), round, clamp into the source axis. Content of one pixel
      or less goes to 0. */
  function LetterboxInverseAxis(p: int, dim: int, scaled: int, offset: int): (r: int)
    requires dim > 0
    ensures 0 <= r < dim
    ensures scaled <= 1 ==> r == 0
  {
    var raw := if scaled - 1 > 0 then RoundHalfEven((p - offset) * (dim - 1), scaled - 1) else 0;
    Clamp(raw, dim - 1)
  }

  /** The inverse axis keeps the order of two target pixels. */
  lemma LetterboxInverseAxisMonotone(p1: int, p2: int, dim: int, scaled: int, offset: int)
    requires dim > 0 && p1 <= p2
    ensures LetterboxInverseAxis(p1, dim, scaled, offset) <= LetterboxInverseAxis(p2, dim, scaled, offset)
  {
    if scaled - 1 > 0 {
      MulMonotone(p1 - offset, p2 - offset, dim - 1);
      RoundHalfEvenMonotone((p1 - offset) * (dim - 1), (p2 - offset) * (dim - 1), scaled - 1);
    }
  }

  /** Padding clamp: a target pixel at or before the content's first pixel goes to the
      first source pixel, one at or after the content's last pixel to the last source
      pixel (for content wider than one pixel, or a one-pixel source axis). */
  lemma LetterboxInverseAxisPadding(p: int, dim: int, scaled: int, offset: int)
    requires dim > 0
    ensures p <= offset ==> LetterboxInverseAxis(p, dim, scaled, offset) == 0
    ensures p >= offset + scaled - 1 && (scaled > 1 || dim == 1)
            ==> LetterboxInverseAxis(p, dim, scaled, offset) == dim - 1
  {
    if scaled - 1 > 0 {
      RoundHalfEvenExact(0, scaled - 1);
      RoundHalfEvenExact(dim - 1, scaled - 1);
      if p <= offset {
        MulMonotone(p - offset, 0, dim - 1);
        RoundHalfEvenMonotone((p - offset) * (dim - 1), 0 * (scaled - 1), scaled - 1);
      }
      if p >= offset + scaled - 1 {
        MulMonotone(scaled - 1, p - offset, dim - 1);
        assert (scaled - 1) * (dim - 1) == (dim - 1) * (scaled - 1);
        RoundHalfEvenMonotone((dim - 1) * (scaled - 1), (p - offset) * (dim - 1), scaled - 1);
      }
    }
  }

  /** The forward axis puts the first source pixel at the offset and the last one at
      the content's last pixel, when the content lies inside the target axis. */
  lemma LetterboxForwardAxisEndpoints(dim: int, scaled: int, offset: int, targetDim: int)
    requires dim > 1 && targetDim > 0
    requires scaled > 0 && 0 <= offset && offset + scaled <= targetDim
    ensures LetterboxForwardAxis(0, dim, scaled, offset, targetDim) == offset
    ensures LetterboxForwardAxis(dim - 1, dim, scaled, offset, targetDim) == offset + scaled - 1
  {
    RoundHalfEvenExact(0, dim - 1);
    assert (dim - 1) * (scaled - 1) == (scaled - 1) * (dim - 1);
    RoundHalfEvenExact(scaled - 1, dim - 1);
  }

  /** Whether a pixel round trip along one axis is guaranteed to within one pixel: the
      source axis has one pixel, or the exact error bound (dim - 1) / (2 (content - 1))
      of the first rounding, magnified on the way back, stays below 3/2. */
  predicate Recoverable(dim: int, content: int) {
    dim == 1 || (dim > 1 && dim - 1 < 3 * (content - 1))
  }

  /** Letterbox round trip along one axis: forward then inverse moves a pixel by at
      most one, provided the content sits inside the target axis and the axis is
      Recoverable. */
  lemma LetterboxAxisRoundTrip(p: int, dim: int, scaled: int, offset: int, targetDim: int)
    requires 0 <= p < dim && targetDim > 0
    requires 0 <= offset && offset + scaled <= targetDim
    requires Recoverable(dim, scaled)
    ensures var q := LetterboxInverseAxis(LetterboxForwardAxis(p, dim, scaled, offset, targetDim), dim, scaled, offset);
            -1 <= q - p <= 1
  {
    if dim > 1 {
      RoundTripWithinOne(p, dim - 1, scaled - 1);
      var y := RoundHalfEven(p * (scaled - 1), dim - 1);
      assert LetterboxForwardAxis(p, dim, scaled, offset, targetDim) == y + offset;
      assert (y + offset - offset) * (dim - 1) == y * (dim - 1);
    }
  }

  /** Stretch round trip along one axis: the ratio remap onto the target axis and back
      moves a pixel by at most one when the axis is Recoverable. */
  lemma StretchAxisRoundTrip(p: int, dim: int, targetDim: int)
    requires 0 <= p < dim && dim > 1 && Recoverable(dim, targetDim)
    ensures targetDim > 1
    ensures -1 <= RatioAxis(RatioAxis(p, dim, targetDim), targetDim, dim) - p <= 1
  {
    RoundTripWithinOne(p, dim - 1, targetDim - 1);
  }

  // ---------------------------------------------------------------------------
  // Coordinate transforms

  /** `forward_transform_coordinate`: a source pixel to the target space. Stretch
      remaps each axis by the pixel-centre ratio and divides by zero on a one-pixel
      source axis; letterbox scales into the content rectangle. The result is always a
      valid pixel of the target space. */
  function ForwardTransformCoordinate(m: ResizeMetadata, c: Coordinate): (r: Result<Coordinate>)
    requires m.Valid() && c.Valid()
    ensures r.Ok? <==> (m.mode == Stretch ==> m.sourceSpace.width > 1 && m.sourceSpace.height > 1)
    ensures r.Err? ==> r.error == DivisionByZero
    ensures r.Ok? ==> r.value.Valid() && r.value.space == m.targetSpace
  {
    var s, t := m.sourceSpace, m.targetSpace;
    match m.mode
    case Stretch =>
      if s.width == 1 || s.height == 1 then Err(DivisionByZero)
      else NewCoordinate(RatioAxis(c.x, s.width, t.width), RatioAxis(c.y, s.height, t.height), t)
    case Letterbox =>
      NewCoordinate(LetterboxForwardAxis(c.x, s.width, m.scaledWidth, m.offsetX, t.width),
                    LetterboxForwardAxis(c.y, s.height, m.scaledHeight, m.offsetY, t.height), t)
  }

  /** When `TransformCoordinate(m, _, target)` divides by zero: stretch divides by the
      target dimensions minus one, and the onward remap into a space other than the
      source divides by the source dimensions minus one. */
  predicate InverseDefined(m: ResizeMetadata, target: Space) {
    && (m.mode == Stretch ==> m.targetSpace.width > 1 && m.targetSpace.height > 1)
    && (target != m.sourceSpace ==> m.sourceSpace.width > 1 && m.sourceSpace.height > 1)
  }

  /** `transform_coordinate`: a target-space pixel back to the source space (stretch:
      the ratio remap; letterbox: remove the offset, rescale, and clamp padding onto
      the nearest source edge), then, when `target` is not the source space, on into
      `target` by the ratio remap. The coordinate's own space is not consulted. The
      result is always a valid pixel of `target`. */
  function TransformCoordinate(m: ResizeMetadata, c: Coordinate, target: Space): (r: Result<Coordinate>)
    requires m.Valid() && c.Valid() && target.Valid()
    ensures r.Ok? <==> InverseDefined(m, target)
    ensures r.Err? ==> r.error == DivisionByZero
    ensures r.Ok? ==> r.value.Valid() && r.value.space == target
  {
    var s, t := m.sourceSpace, m.targetSpace;
    if m.mode == Stretch && (t.width == 1 || t.height == 1) then Err(DivisionByZero)
    else
      var srcX := match m.mode
        case Stretch => RatioAxis(c.x, t.width, s.width)
        case Letterbox => LetterboxInverseAxis(c.x, s.width, m.scaledWidth, m.offsetX);
      var srcY := match m.mode
        case Stretch => RatioAxis(c.y, t.height, s.height)
        case Letterbox => LetterboxInverseAxis(c.y, s.height, m.scaledHeight, m.offsetY);
      if target == s then NewCoordinate(srcX, srcY, target)
      else if s.width == 1 || s.height == 1 then Err(DivisionByZero)
      else NewCoordinate(RatioAxis(srcX, s.width, target.width), RatioAxis(srcY, s.height, target.height), target)
  }

  /** Mapping onward into a third space is the pixel-centre ratio remap, as
      `Coordinate.to_space` without metadata does it, of the pixel mapped back into
      the source space. */
  lemma TransformOntoOtherSpace(m: ResizeMetadata, c: Coordinate, target: Space)
    requires m.Valid() && c.Valid() && target.Valid()
    requires target != m.sourceSpace && InverseDefined(m, target)
    ensures TransformCoordinate(m, c, target)
         == RatioToSpace(TransformCoordinate(m, c, m.sourceSpace).value, target)
  {
  }

  /** The inverse transform keeps the order of two coordinates on each axis. */
  lemma TransformCoordinateMonotone(m: ResizeMetadata, c1: Coordinate, c2: Coordinate, target: Space)
    requires m.Valid() && c1.Valid() && c2.Valid() && target.Valid() && InverseDefined(m, target)
    requires c1.x <= c2.x && c1.y <= c2.y
    ensures TransformCoordinate(m, c1, target).value.x <= TransformCoordinate(m, c2, target).value.x
    ensures TransformCoordinate(m, c1, target).value.y <= TransformCoordinate(m, c2, target).value.y
  {
    var s, t := m.sourceSpace, m.targetSpace;
    match m.mode
    case Stretch =>
      RatioAxisMonotone(c1.x, c2.x, t.width, s.width);
      RatioAxisMonotone(c1.y, c2.y, t.height, s.height);
      if target != s {
        RatioAxisMonotone(RatioAxis(c1.x, t.width, s.width), RatioAxis(c2.x, t.width, s.width), s.width, target.width);
        RatioAxisMonotone(RatioAxis(c1.y, t.height, s.height), RatioAxis(c2.y, t.height, s.height), s.height, target.height);
      }
    case Letterbox =>
      var x1 := LetterboxInverseAxis(c1.x, s.width, m.scaledWidth, m.offsetX);
      var x2 := LetterboxInverseAxis(c2.x, s.width, m.scaledWidth, m.offsetX);
      var y1 := LetterboxInverseAxis(c1.y, s.height, m.scaledHeight, m.offsetY);
      var y2 := LetterboxInverseAxis(c2.y, s.height, m.scaledHeight, m.offsetY);
      LetterboxInverseAxisMonotone(c1.x, c2.x, s.width, m.scaledWidth, m.offsetX);
      LetterboxInverseAxisMonotone(c1.y, c2.y, s.height, m.scaledHeight, m.offsetY);
      if target != s {
        RatioAxisMonotone(x1, x2, s.width, target.width);
        RatioAxisMonotone(y1, y2, s.height, target.height);
      }
  }

  // ---------------------------------------------------------------------------
  // Coordinate.to_space

  /** When `ToSpace(c, target, m)` divides by zero, for a coordinate of space `from`. */
  predicate CanMap(from: Space, target: Space, m: Option<ResizeMetadata>) {
    match m
    case Some(md) => InverseDefined(md, target)
    case None => from.width > 1 && from.height > 1
  }

  /** `Coordinate.to_space(target, resize_metadata)`: with metadata it is that
      metadata's inverse transform, without it the pixel-centre ratio remap. Either
      way the result is a valid pixel of `target` unless a division by zero occurs. */
  function ToSpace(c: Coordinate, target: Space, m: Option<ResizeMetadata>): (r: Result<Coordinate>)
    requires c.Valid() && target.Valid() && (m.Some? ==> m.value.Valid())
    ensures m.Some? ==> r == TransformCoordinate(m.value, c, target)
    ensures m.None? ==> r == RatioToSpace(c, target)
    ensures r.Ok? <==> CanMap(c.space, target, m)
    ensures r.Err? ==> r.error == DivisionByZero
    ensures r.Ok? ==> r.value.Valid() && r.value.space == target
  {
    match m
    case Some(md) => TransformCoordinate(md, c, target)
    case None => RatioToSpace(c, target)
  }

  /** `to_space` keeps the order of two coordinates of one space on each axis. */
  lemma ToSpaceMonotone(c1: Coordinate, c2: Coordinate, target: Space, m: Option<ResizeMetadata>)
    requires c1.Valid() && c2.Valid() && target.Valid() && (m.Some? ==> m.value.Valid())
    requires c1.space == c2.space && CanMap(c1.space, target, m)
    requires c1.x <= c2.x && c1.y <= c2.y
    ensures ToSpace(c1, target, m).value.x <= ToSpace(c2, target, m).value.x
    ensures ToSpace(c1, target, m).value.y <= ToSpace(c2, target, m).value.y
  {
    match m
    case Some(md) => TransformCoordinateMonotone(md, c1, c2, target);
    case None => RatioToSpaceMonotone(c1, c2, target);
  }

  // ---------------------------------------------------------------------------
  // Laws of the two modes

  /** Two coordinates of one space at most one pixel apart on each axis. */
  predicate WithinOnePixel(a: Coordinate, b: Coordinate) {
    a.space == b.space && -1 <= a.x - b.x <= 1 && -1 <= a.y - b.y <= 1
  }

  /** Stretch corners map to corners, both ways. Forward, a one-pixel target axis is
      allowed (both ends go to its one pixel); back, it would divide by zero. */
  lemma StretchCorners(source: Space, target: Space)
    requires source.width > 1 && source.height > 1 && target.Valid()
    ensures var m := ComputeStretchMetadata(source, target);
      && ForwardTransformCoordinate(m, Coordinate(0, 0, source)) == Ok(Coordinate(0, 0, target))
      && ForwardTransformCoordinate(m, Coordinate(source.width - 1, source.height - 1, source))
         == Ok(Coordinate(target.width - 1, target.height - 1, target))
    ensures var m := ComputeStretchMetadata(source, target);
      target.width > 1 && target.height > 1 ==>
        && TransformCoordinate(m, Coordinate(0, 0, target), source) == Ok(Coordinate(0, 0, source))
        && TransformCoordinate(m, Coordinate(target.width - 1, target.height - 1, target), source)
           == Ok(Coordinate(source.width - 1, source.height - 1, source))
  {
    RatioAxisEndpoints(source.width, target.width);
    RatioAxisEndpoints(source.height, target.height);
    if target.width > 1 && target.height > 1 {
      RatioAxisEndpoints(target.width, source.width);
      RatioAxisEndpoints(target.height, source.height);
    }
  }

  /** Letterbox corners: the source's first pixel goes to the content's first pixel at
      the offsets, its last pixel to the content's last pixel. */
  lemma LetterboxCorners(source: Space, target: Space)
    requires source.Valid() && target.Valid()
    ensures var m := ComputeLetterboxMetadata(source, target);
      ForwardTransformCoordinate(m, Coordinate(0, 0, source)) == Ok(Coordinate(m.offsetX, m.offsetY, target))
    ensures var m := ComputeLetterboxMetadata(source, target);
      source.width > 1 && source.height > 1 && m.scaledWidth > 0 && m.scaledHeight > 0 ==>
        ForwardTransformCoordinate(m, Coordinate(source.width - 1, source.height - 1, source))
        == Ok(Coordinate(m.offsetX + m.scaledWidth - 1, m.offsetY + m.scaledHeight - 1, target))
  {
    var m := ComputeLetterboxMetadata(source, target);
    LetterboxFits(source, target);
    if source.width > 1 {
      RoundHalfEvenExact(0, source.width - 1);
    }
    if source.height > 1 {
      RoundHalfEvenExact(0, source.height - 1);
    }
    if source.width > 1 && source.height > 1 && m.scaledWidth > 0 && m.scaledHeight > 0 {
      LetterboxForwardAxisEndpoints(source.width, m.scaledWidth, m.offsetX, target.width);
      LetterboxForwardAxisEndpoints(source.height, m.scaledHeight, m.offsetY, target.height);
    }
  }

  /** Letterbox padding clamp: a click in (or on the edge of) the left or top bar goes
      to the first source column or row, one in (or on the edge of) the right or
      bottom bar to the last. */
  lemma LetterboxPaddingClamp(source: Space, target: Space, c: Coordinate)
    requires source.Valid() && target.Valid() && c.Valid()
    ensures var m := ComputeLetterboxMetadata(source, target);
      var r := TransformCoordinate(m, c, source);
      && r.Ok?
      && (c.x <= m.offsetX ==> r.value.x == 0)
      && (c.y <= m.offsetY ==> r.value.y == 0)
      && (c.x >= m.offsetX + m.scaledWidth - 1 && (m.scaledWidth > 1 || source.width == 1)
          ==> r.value.x == source.width - 1)
      && (c.y >= m.offsetY + m.scaledHeight - 1 && (m.scaledHeight > 1 || source.height == 1)
          ==> r.value.y == source.height - 1)
  {
    var m := ComputeLetterboxMetadata(source, target);
    LetterboxInverseAxisPadding(c.x, source.width, m.scaledWidth, m.offsetX);
    LetterboxInverseAxisPadding(c.y, source.height, m.scaledHeight, m.offsetY);
  }

  /** Stretch round trip: forward then inverse returns every source pixel to within
      one pixel per axis, when each axis is Recoverable. */
  lemma StretchRoundTrip(source: Space, target: Space, c: Coordinate)
    requires target.Valid() && c.Valid() && c.space == source
    requires source.width > 1 && Recoverable(source.width, target.width)
    requires source.height > 1 && Recoverable(source.height, target.height)
    ensures var m := ComputeStretchMetadata(source, target);
      var f := ForwardTransformCoordinate(m, c);
      && f.Ok?
      && TransformCoordinate(m, f.value, source).Ok?
      && WithinOnePixel(TransformCoordinate(m, f.value, source).value, c)
  {
    StretchAxisRoundTrip(c.x, source.width, target.width);
    StretchAxisRoundTrip(c.y, source.height, target.height);
  }

  /** Letterbox round trip: forward then inverse returns every source pixel to within
      one pixel per axis, when each axis is Recoverable against its scaled size. */
  lemma LetterboxRoundTrip(source: Space, target: Space, c: Coordinate)
    requires source.Valid() && target.Valid() && c.Valid() && c.space == source
    requires Recoverable(source.width, ComputeLetterboxMetadata(source, target).scaledWidth)
    requires Recoverable(source.height, ComputeLetterboxMetadata(source, target).scaledHeight)
    ensures var m := ComputeLetterboxMetadata(source, target);
      var f := ForwardTransformCoordinate(m, c);
      && f.Ok?
      && TransformCoordinate(m, f.value, source).Ok?
      && WithinOnePixel(TransformCoordinate(m, f.value, source).value, c)
  {
    var m := ComputeLetterboxMetadata(source, target);
    LetterboxFits(source, target);
    LetterboxAxisRoundTrip(c.x, source.width, m.scaledWidth, m.offsetX, target.width);
    LetterboxAxisRoundTrip(c.y, source.height, m.scaledHeight, m.offsetY, target.height);
  }
}
