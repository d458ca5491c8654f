/**
 Letterboxing of a BGR frame into the detector's input: the plan that scales and
 centres the frame, and the geometry that maps boxes forward and back. Arithmetic
 is exact, where the code rounds in floating point.
 */
module Letterbox {
  import opened Common

  const INT_MAX := 0x7fff_ffff
  const SIZE_MAX := 0xffff_ffff_ffff_ffff

  datatype Image = Image(present: bool, data: seq<byte>, width: int, height: int, stride: int)

  datatype Plan = Plan(sourceWidth: int, sourceHeight: int, width: int, height: int,
                       resizedWidth: int, resizedHeight: int, padLeft: int, padTop: int, scale: real)

  datatype Error = BadImage | ShortStride | ShortBuffer | BadTarget | PlanMismatch | TensorTooLarge

  datatype Outcome<+T> = Ok(value: T) | Err(error: Error)

  /** The checks of `validate_image`, in order; no error means the image may be read. */
  function ImageError(image: Image): Option<Error> {
    if !image.present || image.width <= 0 || image.height <= 0 || image.width > INT_MAX / 3 then Some(BadImage)
    else if image.stride < 0 || image.stride < image.width * 3 then Some(ShortStride)
    else if image.height - 1 > (SIZE_MAX - image.width * 3) / image.stride
         || |image.data| < (image.height - 1) * image.stride + image.width * 3 then Some(ShortBuffer)
    else None
  }

  /** An image is readable exactly if its sizes are positive and small enough and its last row ends inside the buffer. */
  lemma ReadableIff(image: Image)
    ensures ImageError(image).None? <==>
              && image.present && image.width > 0 && image.height > 0 && 3 * image.width <= INT_MAX
              && image.stride >= 3 * image.width
              && (image.height - 1) * image.stride + 3 * image.width <= |image.data|
              && (image.height - 1) * image.stride + 3 * image.width <= SIZE_MAX
  {
    if image.width > 0 && image.height > 0 && image.stride >= 3 * image.width && 3 * image.width <= INT_MAX {
      DivideIff(image.height - 1, image.stride, SIZE_MAX - 3 * image.width);
    }
  }

  lemma DivideIff(k: int, d: int, n: int)
    requires d > 0 && n >= 0
    ensures k > n / d <==> k * d > n
  {
    var q := n / d;
    assert q * d <= n < (q + 1) * d;
    if k > q { MulMonotoneInt(d, q + 1, k); } else { MulMonotoneInt(d, k, q); }
  }

  function RoundUp(x: real): int { (x + 0.5).Floor }

  function Resized(size: int, ratio: real): int { RoundUp(size as real * ratio) }

  function Clamp(x: int, low: int, high: int): int { if x < low then low else if x > high then high else x }

  function MinReal(a: real, b: real): real { if a <= b then a else b }

  function Ratio(sourceWidth: int, sourceHeight: int, width: int, height: int): real
    requires sourceWidth > 0 && sourceHeight > 0
  {
    MinReal(width as real / sourceWidth as real, height as real / sourceHeight as real)
  }

  function PlanFor(sourceWidth: int, sourceHeight: int, width: int, height: int): Plan
    requires sourceWidth > 0 && sourceHeight > 0
  {
    var ratio := Ratio(sourceWidth, sourceHeight, width, height);
    Centre(sourceWidth, sourceHeight, width, height, ratio,
           Resized(sourceWidth, ratio), Resized(sourceHeight, ratio))
  }

  /** The plan that centres a content area of about `w` by `h` in the target. */
  function Centre(sourceWidth: int, sourceHeight: int, width: int, height: int, ratio: real, w: int, h: int): Plan {
    var rw, rh := Clamp(w, 1, width), Clamp(h, 1, height);
    Plan(sourceWidth, sourceHeight, width, height, rw, rh, (width - rw) / 2, (height - rh) / 2, ratio)
  }

  function MakePlan(image: Image, width: int, height: int): Outcome<Plan> {
    match ImageError(image)
    case Some(e) => Err(e)
    case None =>
      if width <= 0 || height <= 0 then Err(BadTarget)
      else Ok(PlanFor(image.width, image.height, width, height))
  }

  predicate ValidPlan(p: Plan) {
    && p.sourceWidth > 0 && p.sourceHeight > 0 && p.width > 0 && p.height > 0
    && p.resizedWidth > 0 && p.resizedHeight > 0 && p.padLeft >= 0 && p.padTop >= 0
    && p.padLeft + p.resizedWidth <= p.width && p.padTop + p.resizedHeight <= p.height
  }

  predicate PlanMatches(width: int, height: int, p: Plan) {
    width == p.sourceWidth && height == p.sourceHeight && p.width > 0 && p.height > 0 && p.scale > 0.0
    && p.resizedWidth > 0 && p.resizedHeight > 0 && p.padLeft >= 0 && p.padTop >= 0
    && p.padLeft + p.resizedWidth <= p.width && p.padTop + p.resizedHeight <= p.height
  }

  /** The checks of `preprocess_cpu`, in order. */
  function PlanError(image: Image, p: Plan): Option<Error> {
    match ImageError(image)
    case Some(e) => Some(e)
    case None =>
      if !PlanMatches(image.width, image.height, p) then Some(PlanMismatch)
      else if p.height > SIZE_MAX / p.width / 3 then Some(TensorTooLarge)
      else None
  }

  lemma DivideOut(a: real, b: real)
    requires b > 0.0
    ensures b * (a / b) == a
  {}

  /** A plan that fills the target in at least one dimension and is centred in the other. */
  ghost predicate Fitted(sourceWidth: int, sourceHeight: int, p: Plan) {
    && ValidPlan(p) && PlanMatches(sourceWidth, sourceHeight, p)
    && (p.resizedWidth == p.width || p.resizedHeight == p.height)
    && 0 <= p.width - p.resizedWidth - 2 * p.padLeft <= 1
    && 0 <= p.height - p.resizedHeight - 2 * p.padTop <= 1
  }

  lemma PlanShape(sw: int, sh: int, width: int, height: int)
    requires sw > 0 && sh > 0 && width > 0 && height > 0
    ensures Fitted(sw, sh, PlanFor(sw, sh, width, height))
  {
    var ratio := Ratio(sw, sh, width, height);
    RatioFills(sw, sh, width, height, ratio);
    CentreShape(sw, sh, width, height, ratio, Resized(sw, ratio), Resized(sh, ratio));
  }

  /** The smaller of the two ratios fills its dimension exactly. */
  lemma RatioFills(sw: int, sh: int, width: int, height: int, ratio: real)
    requires sw > 0 && sh > 0 && width > 0 && height > 0 && ratio == Ratio(sw, sh, width, height)
    ensures ratio > 0.0 && (Resized(sw, ratio) == width || Resized(sh, ratio) == height)
  {
    Quotient(width, sw);
    Quotient(height, sh);
    assert RoundUp(width as real) == width && RoundUp(height as real) == height;
  }

  lemma CentreShape(sw: int, sh: int, width: int, height: int, ratio: real, w: int, h: int)
    requires sw > 0 && sh > 0 && width > 0 && height > 0 && ratio > 0.0 && (w == width || h == height)
    ensures Fitted(sw, sh, Centre(sw, sh, width, height, ratio, w, h))
  {}

  lemma Quotient(a: int, b: int)
    requires a > 0 && b > 0
    ensures a as real / b as real > 0.0 && b as real * (a as real / b as real) == a as real
  {
    DivideOut(a as real, b as real);
  }

  /** A size scaled down or up, to the nearest pixel but at least one. */
  ghost predicate NearestSize(resized: int, scale: real, size: int) {
    || -0.5 <= resized as real - scale * size as real <= 0.5
    || (resized == 1 && scale * size as real < 0.5)
  }

  ghost predicate LargestFitting(scale: real, sw: int, sh: int, width: int, height: int) {
    && scale * sw as real <= width as real && scale * sh as real <= height as real
    && (scale * sw as real == width as real || scale * sh as real == height as real)
  }

  /** Both dimensions are scaled alike, by the largest scale at which the frame still fits. */
  ghost predicate KeepsShape(p: Plan) {
    && LargestFitting(p.scale, p.sourceWidth, p.sourceHeight, p.width, p.height)
    && NearestSize(p.resizedWidth, p.scale, p.sourceWidth) && NearestSize(p.resizedHeight, p.scale, p.sourceHeight)
  }

  lemma PlanKeepsShape(sw: int, sh: int, width: int, height: int)
    requires sw > 0 && sh > 0 && width > 0 && height > 0
    ensures KeepsShape(PlanFor(sw, sh, width, height))
  {
    var ratio := Ratio(sw, sh, width, height);
    RatioFits(sw, sh, width, height, ratio);
    FittingSizes(ratio, sw, sh, width, height);
  }

  lemma FittingSizes(ratio: real, sw: int, sh: int, width: int, height: int)
    requires ratio > 0.0 && sw > 0 && sh > 0 && width > 0 && height > 0 && LargestFitting(ratio, sw, sh, width, height)
    ensures NearestSize(Clamp(Resized(sw, ratio), 1, width), ratio, sw)
    ensures NearestSize(Clamp(Resized(sh, ratio), 1, height), ratio, sh)
  {
    NearestAfterClamp(ratio, sw, width);
    NearestAfterClamp(ratio, sh, height);
  }

  lemma RatioFits(sw: int, sh: int, width: int, height: int, ratio: real)
    requires sw > 0 && sh > 0 && width > 0 && height > 0 && ratio == Ratio(sw, sh, width, height)
    ensures ratio > 0.0 && LargestFitting(ratio, sw, sh, width, height)
  {
    var a, b := width as real / sw as real, height as real / sh as real;
    Quotient(width, sw);
    Quotient(height, sh);
    if a <= b { Sign(b - a, sh as real); } else { Sign(a - b, sw as real); }
  }

  lemma NearestAfterClamp(ratio: real, size: int, limit: int)
    requires ratio > 0.0 && size > 0 && limit > 0 && ratio * size as real <= limit as real
    ensures NearestSize(Clamp(Resized(size, ratio), 1, limit), ratio, size)
  {
    var x := ratio * size as real;
    assert size as real * ratio == x;
    ClampNearest(x, limit);
  }

  lemma ClampNearest(x: real, limit: int)
    requires limit > 0 && x <= limit as real
    ensures var r := Clamp(RoundUp(x), 1, limit); -0.5 <= r as real - x <= 0.5 || (r == 1 && x < 0.5)
  {}

  /**
   Every plan made for a readable image keeps the frame's shape, is valid, is accepted
   by the resampler, fills the target in at least one dimension and is centred in the
   other.
   */
  lemma PlansAreValid(image: Image, width: int, height: int)
    requires ImageError(image).None? && 0 < width <= INT_MAX && 0 < height <= INT_MAX
    ensures MakePlan(image, width, height).Ok?
    ensures var p := MakePlan(image, width, height).value;
            && p.sourceWidth == image.width && p.sourceHeight == image.height && p.width == width && p.height == height
            && KeepsShape(p)
            && ValidPlan(p) && PlanError(image, p).None?
            && (p.resizedWidth == p.width || p.resizedHeight == p.height)
            && 0 <= p.width - p.resizedWidth - 2 * p.padLeft <= 1
            && 0 <= p.height - p.resizedHeight - 2 * p.padTop <= 1
  {
    PlanShape(image.width, image.height, width, height);
    PlanKeepsShape(image.width, image.height, width, height);
    TensorFits(width, height);
  }

  lemma TensorFits(width: int, height: int)
    requires 0 < width <= INT_MAX && 0 < height <= INT_MAX
    ensures height <= SIZE_MAX / width / 3
  {
    var q := SIZE_MAX / width;
    assert SIZE_MAX < width * (q + 1);
    MulMonotoneInt(q + 1, width, INT_MAX);
  }

  lemma MulMonotoneInt(k: int, a: int, b: int)
    requires k >= 0 && a <= b
    ensures a * k <= b * k
  {}

  // ----- boxes forward and back -----

  function Forward(x: real, pad: int, resized: int, source: int): real
    requires source > 0
  {
    x * (resized as real / source as real) + pad as real
  }

  function Restore(x: real, pad: int, resized: int, source: int): real
    requires resized > 0
  {
    (x - pad as real) * (source as real / resized as real)
  }

  function ClampReal(x: real, low: real, high: real): real {
    if x < low then low else if x > high then high else x
  }

  /** Restoration inverts the forward map, and the clamp leaves points of the frame alone. */
  lemma RestoreInverts(x: real, pad: int, resized: int, source: int)
    requires resized > 0 && source > 0
    ensures Restore(Forward(x, pad, resized, source), pad, resized, source) == x
    ensures Forward(Restore(x, pad, resized, source), pad, resized, source) == x
    ensures 0.0 <= x <= source as real ==>
              ClampReal(Restore(Forward(x, pad, resized, source), pad, resized, source), 0.0, source as real) == x
  {
    var k, m := resized as real / source as real, source as real / resized as real;
    Reciprocal(resized as real, source as real);
    Cancel(x, k, m);
    Cancel(x - pad as real, m, k);
  }

  lemma Cancel(x: real, k: real, m: real)
    requires k * m == 1.0
    ensures (x * k) * m == x
  {
    assert (x * k) * m == x * (k * m);
  }

  lemma Reciprocal(a: real, b: real)
    requires a > 0.0 && b > 0.0
    ensures (a / b) * (b / a) == 1.0
  {
    DivideOut(a, b);
    DivideOut(b, a);
    var k, m := a / b, b / a;
    assert b * k == a && a * m == b;
    assert a * (k * m) == k * (a * m) == k * b == a;
  }

  /** An interval that reaches into the content area restores to a non-empty interval of the frame. */
  lemma RestoredNonEmpty(low: real, high: real, pad: int, resized: int, source: int)
    requires resized > 0 && source > 0 && low < high
    requires high > pad as real && low < (pad + resized) as real
    ensures var a := ClampReal(Restore(low, pad, resized, source), 0.0, source as real);
            var b := ClampReal(Restore(high, pad, resized, source), 0.0, source as real);
            0.0 <= a < b <= source as real
  {
    Quotient(source, resized);
    ScaledInterval(low - pad as real, high - pad as real, resized as real, source as real, source as real / resized as real);
  }

  lemma ScaledInterval(a: real, b: real, n: real, top: real, m: real)
    requires a < b && 0.0 < b && a < n && m > 0.0 && n * m == top && 0.0 < top
    ensures 0.0 <= ClampReal(a * m, 0.0, top) < ClampReal(b * m, 0.0, top) <= top
  {
    StrictScale(a, b, m);
    StrictScale(0.0, b, m);
    StrictScale(a, n, m);
    ClampedInterval(a * m, b * m, top);
  }

  lemma ClampedInterval(a: real, b: real, top: real)
    requires a < b && 0.0 < b && a < top && 0.0 < top
    ensures 0.0 <= ClampReal(a, 0.0, top) < ClampReal(b, 0.0, top) <= top
  {}

  /**
   Where a corner goes, without division: inside the content area it is the point of the
   frame that the letterbox maps to it, before it the near edge, beyond it the far edge.
   */
  ghost predicate CornerOf(x: real, u: real, pad: int, resized: int, source: int) {
    && (pad as real <= x <= (pad + resized) as real ==> u * resized as real == (x - pad as real) * source as real)
    && (x <= pad as real ==> u == 0.0)
    && (x >= (pad + resized) as real ==> u == source as real)
  }

  lemma RestoresCorner(x: real, pad: int, resized: int, source: int)
    requires resized > 0 && source > 0
    ensures CornerOf(x, ClampReal(Restore(x, pad, resized, source), 0.0, source as real), pad, resized, source)
  {
    Quotient(source, resized);
    ScaledCorner(x - pad as real, resized as real, source as real, source as real / resized as real);
  }

  lemma ScaledCorner(a: real, n: real, top: real, m: real)
    requires n > 0.0 && top > 0.0 && m > 0.0 && n * m == top
    ensures var u := ClampReal(a * m, 0.0, top);
            && (0.0 <= a <= n ==> u * n == a * top)
            && (a <= 0.0 ==> u == 0.0) && (a >= n ==> u == top)
  {
    var am := a * m;
    if a <= 0.0 { Sign(-a, m); } else { Sign(a, m); }
    if a >= n { Sign(a - n, m); } else { Sign(n - a, m); }
    assert (a - n) * m == am - top && (n - a) * m == top - am && (-a) * m == -am;
    assert am * n == a * (m * n);
  }

  lemma Sign(a: real, m: real)
    requires a >= 0.0 && m > 0.0
    ensures a * m >= 0.0
  {}

  lemma StrictScale(a: real, b: real, m: real)
    requires a < b && m > 0.0
    ensures a * m < b * m
  {
    assert (b - a) * m > 0.0;
  }
}
