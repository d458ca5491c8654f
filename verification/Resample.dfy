/**
 Resampling of a BGR frame into three RGB planes: every byte read lies inside the
 image buffer, and every output cell is padding or a bilinear mix of four pixels.
 */
module Resample {
  import opened Common
  import opened Letterbox

  const PADDING := 114.0 / 255.0

  // ----- reading -----

  lemma PixelInBounds(image: Image, x: int, y: int, channel: int)
    requires ImageError(image).None?
    requires 0 <= x < image.width && 0 <= y < image.height && 0 <= channel < 3
    ensures 0 <= y * image.stride + x * 3 + channel < |image.data|
  {
    MulMonotoneInt(image.stride, y, image.height - 1);
    MulMonotoneInt(image.stride, 0, y);
  }

  function Pixel(image: Image, x: int, y: int, channel: int): (v: real)
    requires ImageError(image).None?
    requires 0 <= x < image.width && 0 <= y < image.height && 0 <= channel < 3
    ensures 0.0 <= v <= 255.0
  {
    PixelInBounds(image, x, y, channel);
    image.data[y * image.stride + x * 3 + channel] as real
  }

  /** A blend with weights that add up to one. */
  function Mix(a: real, b: real, u: real, w: real): real { a * u + b * w }

  lemma MulMonotone(k: real, a: real, b: real)
    requires k >= 0.0 && a <= b
    ensures a * k <= b * k
  {}

  lemma MixMonotone(a: real, b: real, c: real, d: real, u: real, w: real)
    requires a <= c && b <= d && 0.0 <= u && 0.0 <= w
    ensures Mix(a, b, u, w) <= Mix(c, d, u, w)
  {
    MulMonotone(u, a, c);
    MulMonotone(w, b, d);
  }

  lemma MixSame(a: real, u: real, w: real)
    requires u + w == 1.0
    ensures Mix(a, a, u, w) == a
  {
    assert a * u + a * w == a * (u + w);
  }

  lemma MixBetween(a: real, b: real, u: real, w: real, low: real, high: real)
    requires low <= a <= high && low <= b <= high && 0.0 <= u && 0.0 <= w && u + w == 1.0
    ensures low <= Mix(a, b, u, w) <= high
  {
    MixMonotone(low, low, a, b, u, w);
    MixMonotone(a, b, high, high, u, w);
    MixSame(low, u, w);
    MixSame(high, u, w);
  }

  /** The pixel a sample reads at row offset `j` and column offset `i` (0 or 1), moved to the nearest pixel of the image. */
  function Corner(image: Image, x: real, y: real, channel: int, i: int, j: int): real
    requires ImageError(image).None? && 0 <= channel < 3
  {
    Pixel(image, Clamp(x.Floor + i, 0, image.width - 1), Clamp(y.Floor + j, 0, image.height - 1), channel)
  }

  function Sample(image: Image, x: real, y: real, channel: int): real
    requires ImageError(image).None? && 0 <= channel < 3
  {
    var wx, wy := x - x.Floor as real, y - y.Floor as real;
    Mix(Mix(Corner(image, x, y, channel, 0, 0), Corner(image, x, y, channel, 1, 0), 1.0 - wx, wx),
        Mix(Corner(image, x, y, channel, 0, 1), Corner(image, x, y, channel, 1, 1), 1.0 - wx, wx), 1.0 - wy, wy)
  }

  /** A sample stays within the range of its four pixels. */
  lemma SampleConvex(image: Image, x: real, y: real, channel: int, low: real, high: real)
    requires ImageError(image).None? && 0 <= channel < 3
    requires forall i, j :: 0 <= i <= 1 && 0 <= j <= 1 ==> low <= Corner(image, x, y, channel, i, j) <= high
    ensures low <= Sample(image, x, y, channel) <= high
  {
    var wx, wy := x - x.Floor as real, y - y.Floor as real;
    var p, q := Corner(image, x, y, channel, 0, 0), Corner(image, x, y, channel, 1, 0);
    var r, s := Corner(image, x, y, channel, 0, 1), Corner(image, x, y, channel, 1, 1);
    MixBetween(p, q, 1.0 - wx, wx, low, high);
    MixBetween(r, s, 1.0 - wx, wx, low, high);
    MixBetween(Mix(p, q, 1.0 - wx, wx), Mix(r, s, 1.0 - wx, wx), 1.0 - wy, wy, low, high);
  }

  /** At the centre of a pixel the sample is that pixel. */
  lemma SampleAtPixel(image: Image, x: int, y: int, channel: int)
    requires ImageError(image).None? && 0 <= channel < 3
    requires 0 <= x < image.width && 0 <= y < image.height
    ensures Sample(image, x as real, y as real, channel) == Pixel(image, x, y, channel)
  {
    var u, v := x as real, y as real;
    assert u.Floor == x && v.Floor == y;
    var p, q := Corner(image, u, v, channel, 0, 0), Corner(image, u, v, channel, 1, 0);
    var r, s := Corner(image, u, v, channel, 0, 1), Corner(image, u, v, channel, 1, 1);
    assert p == Pixel(image, x, y, channel);
    MixFirst(p, q);
    MixFirst(r, s);
    MixFirst(p, r);
  }

  lemma MixFirst(a: real, b: real)
    ensures Mix(a, b, 1.0 - 0.0, 0.0) == a
  {}

  function Along(base: real, slope: real, t: real): real { base + slope * t }

  /** The pixels of a channel are a linear function of their place. */
  ghost predicate IsLinear(image: Image, channel: int, base: real, dx: real, dy: real)
    requires ImageError(image).None? && 0 <= channel < 3
  {
    forall i, j :: 0 <= i < image.width && 0 <= j < image.height ==>
      Pixel(image, i, j, channel) == Along(Along(base, dy, j as real), dx, i as real)
  }

  /**
   Interpolation is linear in both directions: on an image whose pixels are a linear
   function of their place, every sample is that function at its own place, moved to the
   nearest point between the outermost pixels.
   */
  lemma SampleIsLinear(image: Image, x: real, y: real, channel: int, base: real, dx: real, dy: real)
    requires ImageError(image).None? && 0 <= channel < 3 && IsLinear(image, channel, base, dx, dy)
    ensures var u, v := ClampReal(x, 0.0, (image.width - 1) as real), ClampReal(y, 0.0, (image.height - 1) as real);
            Sample(image, x, y, channel) == Along(Along(base, dy, v), dx, u)
  {
    var u, v := ClampReal(x, 0.0, (image.width - 1) as real), ClampReal(y, 0.0, (image.height - 1) as real);
    var y0, y1 := Clamp(y.Floor, 0, image.height - 1), Clamp(y.Floor + 1, 0, image.height - 1);
    RowIsLinear(image, x, y, channel, base, dx, dy, 0);
    RowIsLinear(image, x, y, channel, base, dx, dy, 1);
    Commute(base, dy, y0 as real, dx, u);
    Commute(base, dy, y1 as real, dx, u);
    AxisIsLinear(y, image.height, Along(base, dx, u), dy);
    Commute(base, dy, v, dx, u);
  }

  lemma Commute(base: real, d: real, s: real, e: real, t: real)
    ensures Along(Along(base, d, s), e, t) == Along(Along(base, e, t), d, s)
  {}

  lemma RowIsLinear(image: Image, x: real, y: real, channel: int, base: real, dx: real, dy: real, j: int)
    requires ImageError(image).None? && 0 <= channel < 3 && IsLinear(image, channel, base, dx, dy) && 0 <= j <= 1
    ensures var w, row := x - x.Floor as real, Clamp(y.Floor + j, 0, image.height - 1);
            Mix(Corner(image, x, y, channel, 0, j), Corner(image, x, y, channel, 1, j), 1.0 - w, w)
              == Along(Along(base, dy, row as real), dx, ClampReal(x, 0.0, (image.width - 1) as real))
  {
    var row := Clamp(y.Floor + j, 0, image.height - 1);
    var x0, x1 := Clamp(x.Floor, 0, image.width - 1), Clamp(x.Floor + 1, 0, image.width - 1);
    assert Corner(image, x, y, channel, 0, j) == Pixel(image, x0, row, channel);
    assert Corner(image, x, y, channel, 1, j) == Pixel(image, x1, row, channel);
    AxisIsLinear(x, image.width, Along(base, dy, row as real), dx);
  }

  /** One direction: between two neighbouring pixels the mix is the point between them. */
  lemma AxisIsLinear(x: real, n: int, base: real, d: real)
    requires n > 0
    ensures var w := x - x.Floor as real;
            var x0, x1 := Clamp(x.Floor, 0, n - 1), Clamp(x.Floor + 1, 0, n - 1);
            Mix(Along(base, d, x0 as real), Along(base, d, x1 as real), 1.0 - w, w)
              == Along(base, d, ClampReal(x, 0.0, (n - 1) as real))
  {
    var w := x - x.Floor as real;
    var x0, x1 := Clamp(x.Floor, 0, n - 1), Clamp(x.Floor + 1, 0, n - 1);
    if x0 == x1 {
      MixSame(Along(base, d, x0 as real), 1.0 - w, w);
      assert ClampReal(x, 0.0, (n - 1) as real) == x0 as real;
    } else {
      assert ClampReal(x, 0.0, (n - 1) as real) == x0 as real + w;
      MixStep(Along(base, d, x0 as real), d, w);
      Further(base, d, x0 as real, 1.0);
      Further(base, d, x0 as real, w);
    }
  }

  lemma Further(base: real, d: real, s: real, t: real)
    ensures Along(base, d, s + t) == Along(base, d, s) + d * t
  {}

  lemma MixStep(p: real, d: real, w: real)
    ensures Mix(p, p + d, 1.0 - w, w) == p + d * w
  {
    assert (p + d) * w == p * w + d * w;
    assert p * (1.0 - w) == p - p * w;
  }

  // ----- the tensor -----

  /** The source coordinate of an output coordinate's centre. */
  function SourceAt(i: int, pad: int, source: int, resized: int): real
    requires resized > 0
  {
    Scaled((i - pad) as real + 0.5, source as real, resized as real) - 0.5
  }

  function Scaled(a: real, b: real, c: real): real
    requires c > 0.0
  {
    a * b / c
  }

  /** Sampling looks where box restoration points: centres of cells map to centres of source pixels. */
  lemma SourceIsRestoredCentre(i: int, pad: int, source: int, resized: int)
    requires resized > 0
    ensures SourceAt(i, pad, source, resized) + 0.5 == Restore(i as real + 0.5, pad, resized, source)
  {
    var x := i as real + 0.5 - pad as real;
    assert x == (i - pad) as real + 0.5;
    ScaleThenDivide(x, source as real, resized as real);
  }

  lemma ScaleThenDivide(a: real, b: real, c: real)
    requires c > 0.0
    ensures Scaled(a, b, c) == a * (b / c)
  {
    DivideOut(b, c);
    assert c * (a * (b / c)) == a * (c * (b / c));
  }

  predicate InContent(p: Plan, y: int, x: int) {
    p.padTop <= y < p.padTop + p.resizedHeight && p.padLeft <= x < p.padLeft + p.resizedWidth
  }

  /** The value of plane `c` (0 red, 1 green, 2 blue) at row `y`, column `x`. */
  function Cell(image: Image, p: Plan, c: int, y: int, x: int): real
    requires PlanError(image, p).None? && 0 <= c < 3
  {
    if InContent(p, y, x) then
      Sample(image, SourceAt(x, p.padLeft, p.sourceWidth, p.resizedWidth),
             SourceAt(y, p.padTop, p.sourceHeight, p.resizedHeight), 2 - c) / 255.0
    else PADDING
  }

  /**
   Cells outside the content are grey. A content cell shows, in the planes' order red,
   green, blue, the frame at the point whose letterbox image is the cell's centre.
   */
  lemma CellIs(image: Image, p: Plan, c: int, y: int, x: int, u: real, v: real)
    requires PlanError(image, p).None? && 0 <= c < 3
    requires u * p.resizedWidth as real == (x as real + 0.5 - p.padLeft as real) * p.sourceWidth as real
    requires v * p.resizedHeight as real == (y as real + 0.5 - p.padTop as real) * p.sourceHeight as real
    ensures Cell(image, p, c, y, x) ==
              if p.padTop <= y < p.padTop + p.resizedHeight && p.padLeft <= x < p.padLeft + p.resizedWidth
              then Sample(image, u - 0.5, v - 0.5, 2 - c) / 255.0
              else 114.0 / 255.0
  {
    SourceIs(x, p.padLeft, p.sourceWidth, p.resizedWidth, u);
    SourceIs(y, p.padTop, p.sourceHeight, p.resizedHeight, v);
  }

  lemma SourceIs(i: int, pad: int, source: int, resized: int, u: real)
    requires resized > 0 && u * resized as real == (i as real + 0.5 - pad as real) * source as real
    ensures SourceAt(i, pad, source, resized) == u - 0.5
  {
    var a := (i - pad) as real + 0.5;
    assert a == i as real + 0.5 - pad as real;
    ScaledIs(a, source as real, resized as real, u);
  }

  lemma ScaledIs(a: real, b: real, c: real, u: real)
    requires c > 0.0 && u * c == a * b
    ensures Scaled(a, b, c) == u
  {
    var t := a * b;
    Undo(u, c, t);
  }

  lemma Undo(u: real, n: real, a: real)
    requires n > 0.0 && u * n == a
    ensures a / n == u
  {}

  lemma CellInUnit(image: Image, p: Plan, c: int, y: int, x: int)
    requires PlanError(image, p).None? && 0 <= c < 3
    ensures 0.0 <= Cell(image, p, c, y, x) <= 1.0
  {
    if InContent(p, y, x) {
      SampleConvex(image, SourceAt(x, p.padLeft, p.sourceWidth, p.resizedWidth),
                   SourceAt(y, p.padTop, p.sourceHeight, p.resizedHeight), 2 - c, 0.0, 255.0);
    }
  }

  /** Without scaling, every content cell is exactly its pixel. */
  lemma UnscaledIsCopy(image: Image, p: Plan, c: int, y: int, x: int)
    requires PlanError(image, p).None? && 0 <= c < 3 && InContent(p, y, x)
    requires p.resizedWidth == image.width && p.resizedHeight == image.height
    ensures Cell(image, p, c, y, x) == Pixel(image, x - p.padLeft, y - p.padTop, 2 - c) / 255.0
  {
    SourceUnscaled(x, p.padLeft, image.width);
    SourceUnscaled(y, p.padTop, image.height);
    SampleAtPixel(image, x - p.padLeft, y - p.padTop, 2 - c);
  }

  lemma SourceUnscaled(i: int, pad: int, n: int)
    requires n > 0
    ensures SourceAt(i, pad, n, n) == (i - pad) as real
  {
    Unscaled((i - pad) as real + 0.5, n as real);
  }

  lemma Unscaled(a: real, n: real)
    requires n > 0.0
    ensures Scaled(a, n, n) == a
  {}

  // ----- offsets -----

  function Offset(p: Plan, c: int, y: int, x: int): int { c * (p.width * p.height) + y * p.width + x }

  lemma RowMajor(y: int, x: int, height: int, width: int)
    requires 0 <= y < height && 0 <= x < width
    ensures 0 <= y * width + x < width * height
  {
    MulMonotoneInt(width, y + 1, height);
    MulMonotoneInt(width, 0, y);
    assert (y + 1) * width == y * width + width;
    assert height * width == width * height;
  }

  lemma SameQuotient(a: int, b: int, r: int, s: int, n: int)
    requires n > 0 && 0 <= r < n && 0 <= s < n && a * n + r == b * n + s
    ensures a == b && r == s
  {
    if a < b {
      MulMonotoneInt(n, a + 1, b);
    } else if b < a {
      MulMonotoneInt(n, b + 1, a);
    }
  }

  lemma OffsetInRange(p: Plan, c: int, y: int, x: int)
    requires 0 <= c < 3 && 0 <= y < p.height && 0 <= x < p.width
    ensures 0 <= Offset(p, c, y, x) < 3 * (p.width * p.height)
  {
    RowMajor(y, x, p.height, p.width);
  }

  /** Distinct cells have distinct offsets. */
  lemma OffsetInjective(p: Plan, c: int, y: int, x: int, c': int, y': int, x': int)
    requires 0 <= y < p.height && 0 <= x < p.width && 0 <= y' < p.height && 0 <= x' < p.width
    requires Offset(p, c, y, x) == Offset(p, c', y', x')
    ensures c == c' && y == y' && x == x'
  {
    RowMajor(y, x, p.height, p.width);
    RowMajor(y', x', p.height, p.width);
    SameQuotient(c, c', y * p.width + x, y' * p.width + x', p.width * p.height);
    SameQuotient(y, y', x, x', p.width);
  }

  // ----- the loop -----

  /** The cells of rows before `y`, and of row `y` before column `x`, are final; the others are padding. */
  ghost predicate FilledTo(out: seq<real>, image: Image, p: Plan, y: int, x: int)
    requires PlanError(image, p).None?
  {
    && |out| == 3 * (p.width * p.height)
    && forall c, j, i {:trigger Offset(p, c, j, i)} :: 0 <= c < 3 && 0 <= j < p.height && 0 <= i < p.width ==>
         && 0 <= Offset(p, c, j, i) < |out|
         && out[Offset(p, c, j, i)] == if j < y || (j == y && i < x) then Cell(image, p, c, j, i) else PADDING
  }

  /** Writing the three cells of one position carries the loop past it. */
  lemma FillOne(out: seq<real>, image: Image, p: Plan, y: int, x: int, red: real, green: real, blue: real)
    requires PlanError(image, p).None? && 0 <= y < p.height && 0 <= x < p.width
    requires FilledTo(out, image, p, y, x)
    requires red == Cell(image, p, 0, y, x) && green == Cell(image, p, 1, y, x) && blue == Cell(image, p, 2, y, x)
    requires forall c :: 0 <= c < 3 ==> 0 <= Offset(p, c, y, x) < |out|
    ensures FilledTo(out[Offset(p, 0, y, x) := red][Offset(p, 1, y, x) := green][Offset(p, 2, y, x) := blue],
                     image, p, y, x + 1)
  {
    var next := out[Offset(p, 0, y, x) := red][Offset(p, 1, y, x) := green][Offset(p, 2, y, x) := blue];
    forall c, j, i | 0 <= c < 3 && 0 <= j < p.height && 0 <= i < p.width
      ensures 0 <= Offset(p, c, j, i) < |next|
      ensures next[Offset(p, c, j, i)] == if j < y || (j == y && i < x + 1) then Cell(image, p, c, j, i) else PADDING
    {
      OffsetInRange(p, c, j, i);
      WrittenCell(out, p, y, x, red, green, blue, c, j, i);
    }
  }

  lemma WrittenCell(out: seq<real>, p: Plan, y: int, x: int, red: real, green: real, blue: real, c: int, j: int, i: int)
    requires |out| == 3 * (p.width * p.height) && 0 <= y < p.height && 0 <= x < p.width
    requires 0 <= c < 3 && 0 <= j < p.height && 0 <= i < p.width
    requires forall d :: 0 <= d < 3 ==> 0 <= Offset(p, d, y, x) < |out|
    requires 0 <= Offset(p, c, j, i) < |out|
    ensures var next := out[Offset(p, 0, y, x) := red][Offset(p, 1, y, x) := green][Offset(p, 2, y, x) := blue];
            next[Offset(p, c, j, i)] ==
              if j == y && i == x then (if c == 0 then red else if c == 1 then green else blue)
              else out[Offset(p, c, j, i)]
  {
    if Offset(p, c, j, i) == Offset(p, 0, y, x) { OffsetInjective(p, c, j, i, 0, y, x); }
    if Offset(p, c, j, i) == Offset(p, 1, y, x) { OffsetInjective(p, c, j, i, 1, y, x); }
    if Offset(p, c, j, i) == Offset(p, 2, y, x) { OffsetInjective(p, c, j, i, 2, y, x); }
  }

  /** Passing a run of padding columns changes nothing. */
  lemma SkipPadding(out: seq<real>, image: Image, p: Plan, y: int, x: int, y': int, x': int)
    requires PlanError(image, p).None? && FilledTo(out, image, p, y, x)
    requires forall j, i :: 0 <= j < p.height && 0 <= i < p.width && InContent(p, j, i) ==>
               (j < y || (j == y && i < x) <==> j < y' || (j == y' && i < x'))
    ensures FilledTo(out, image, p, y', x')
  {
  }

  /** The tensor, or the error that keeps it from being made. */
  method PreprocessCpu(image: Image, p: Plan) returns (r: Outcome<array<real>>)
    ensures PlanError(image, p).Some? ==> r == Err(PlanError(image, p).value)
    ensures PlanError(image, p).None? ==> r.Ok? && fresh(r.value)
    ensures PlanError(image, p).None? ==>
              r.value.Length == 3 * (p.width * p.height)
              && forall c, y, x {:trigger Offset(p, c, y, x)} :: 0 <= c < 3 && 0 <= y < p.height && 0 <= x < p.width ==>
                   0 <= Offset(p, c, y, x) < r.value.Length && r.value[Offset(p, c, y, x)] == Cell(image, p, c, y, x)
  {
    var error := PlanError(image, p);
    if error.Some? { return Err(error.value); }
    var plane := p.width * p.height;
    var out := new real[3 * plane](_ => PADDING);
    forall c, j, i | 0 <= c < 3 && 0 <= j < p.height && 0 <= i < p.width
      ensures 0 <= Offset(p, c, j, i) < out.Length
    {
      OffsetInRange(p, c, j, i);
    }
    var y := p.padTop;
    assert FilledTo(out[..], image, p, 0, 0);
    SkipPadding(out[..], image, p, 0, 0, y, 0);
    while y < p.padTop + p.resizedHeight
      invariant p.padTop <= y <= p.padTop + p.resizedHeight
      invariant FilledTo(out[..], image, p, y, 0)
    {
      FillRow(image, p, out, y);
      y := y + 1;
    }
    SkipPadding(out[..], image, p, y, 0, p.height, 0);
    r := Ok(out);
    ghost var s := out[..];
    assert FilledTo(s, image, p, p.height, 0);
  }

  method FillRow(image: Image, p: Plan, out: array<real>, y: int)
    requires PlanError(image, p).None? && p.padTop <= y < p.padTop + p.resizedHeight
    requires FilledTo(out[..], image, p, y, 0)
    modifies out
    ensures FilledTo(out[..], image, p, y + 1, 0)
  {
    var sourceY := SourceAt(y, p.padTop, p.sourceHeight, p.resizedHeight);
    var plane := p.width * p.height;
    var x := p.padLeft;
    SkipPadding(out[..], image, p, y, 0, y, x);
    while x < p.padLeft + p.resizedWidth
      invariant p.padLeft <= x <= p.padLeft + p.resizedWidth
      invariant FilledTo(out[..], image, p, y, x)
    {
      var sourceX := SourceAt(x, p.padLeft, p.sourceWidth, p.resizedWidth);
      OffsetInRange(p, 0, y, x);
      OffsetInRange(p, 1, y, x);
      OffsetInRange(p, 2, y, x);
      var offset := y * p.width + x;
      var red, green, blue := Sample(image, sourceX, sourceY, 2) / 255.0,
                              Sample(image, sourceX, sourceY, 1) / 255.0,
                              Sample(image, sourceX, sourceY, 0) / 255.0;
      FillOne(out[..], image, p, y, x, red, green, blue);
      ghost var before := out[..];
      out[offset] := red;
      out[plane + offset] := green;
      out[plane * 2 + offset] := blue;
      assert out[..] == before[Offset(p, 0, y, x) := red][Offset(p, 1, y, x) := green][Offset(p, 2, y, x) := blue];
      x := x + 1;
    }
    SkipPadding(out[..], image, p, y, x, y + 1, 0);
  }
}
