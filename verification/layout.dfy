/**
 * `ImageGenerator.calculate_layout` and the ratio arithmetic of `resize_product_image`.
 * Python's `w / h` on ints is modelled as exact real division; `int(x)` of a non-negative
 * number truncates, which is `Floor`. (Floats can land one pixel lower at an exact fit.)
 * Python's `//` floors, and so does Dafny's `/` when the divisor is positive.
 */
module Layout {
  import opened SizeColors
  import opened RealArith

  datatype Size = Size(width: int, height: int)

  /** The plan `calculate_layout` returns: canvas, product box, and its top-left corner. */
  datatype LayoutPlan = LayoutPlan(canvasWidth: int, canvasHeight: int, product: Size, x: int, y: int)

  function Max(a: int, b: int): int { if a >= b then a else b }

  function Min(a: int, b: int): int { if a <= b then a else b }

  function MinReal(a: real, b: real): real { if a <= b then a else b }

  /** Vertical room `calculate_layout` keeps for the size/colour table (35 px per row and 50 px). */
  function ReservedTableHeight(m: SizeColorMatrix): nat {
    if m.sizes != [] && m.colors != [] then (|m.colors| + 1) * 35 + 50 else 0
  }

  /** The factor `resize_product_image` scales by: min(target.w / w, target.h / h). */
  function FitRatio(image: Size, target: Size): (ratio: real)
    requires image.width > 0 && image.height > 0
    requires target.width >= 0 && target.height >= 0
    ensures ratio >= 0.0
  {
    MinReal(target.width as real / image.width as real, target.height as real / image.height as real)
  }

  /** `int(length * ratio)` */
  function ScaleSide(length: int, ratio: real): int {
    (length as real * ratio).Floor
  }

  /**
   * `resize_product_image`: scale `image` by `FitRatio` and truncate. The result lies inside
   * the target and fills it along at least one side; it shrinks the image when the target
   * is smaller along some side, and never shrinks it otherwise.
   */
  function ResizeProductImage(image: Size, target: Size): (r: Size)
    requires image.width > 0 && image.height > 0
    requires target.width >= 0 && target.height >= 0
    ensures 0 <= r.width <= target.width && 0 <= r.height <= target.height
    ensures r.width == target.width || r.height == target.height
    ensures target.width < image.width || target.height < image.height ==>
              r.width <= image.width && r.height <= image.height
    ensures target.width >= image.width && target.height >= image.height ==>
              r.width >= image.width && r.height >= image.height
  {
    var ratio := FitRatio(image, target);
    ScaledWithinTarget(image, target);
    ScaledFillsOneSide(image, target);
    ScaledAgainstImage(image, target);
    Size(ScaleSide(image.width, ratio), ScaleSide(image.height, ratio))
  }

  /** Scaling by the fit ratio lands inside the target and on its edge along one side. */
  lemma ScaleFits(w: real, h: real, tw: real, th: real, ratio: real)
    requires w > 0.0 && h > 0.0 && tw >= 0.0 && th >= 0.0
    requires ratio == MinReal(tw / w, th / h)
    ensures 0.0 <= w * ratio <= tw && 0.0 <= h * ratio <= th
    ensures w * ratio == tw || h * ratio == th
  {
    assert w * (tw / w) == tw;
    assert h * (th / h) == th;
    if tw / w <= th / h {
      assert h * (tw / w) <= h * (th / h);
    } else {
      assert w * (th / h) <= w * (tw / w);
    }
  }

  /** The fit ratio is below 1 exactly when the target is smaller along some side. */
  lemma RatioVersusOne(w: real, h: real, tw: real, th: real, ratio: real)
    requires w > 0.0 && h > 0.0 && tw >= 0.0 && th >= 0.0
    requires ratio == MinReal(tw / w, th / h)
    ensures tw < w || th < h ==> ratio <= 1.0
    ensures tw >= w && th >= h ==> ratio >= 1.0
  {
    QuotientVersusOne(tw, w);
    QuotientVersusOne(th, h);
  }

  lemma QuotientVersusOne(a: real, b: real)
    requires b > 0.0
    ensures a < b ==> a / b < 1.0
    ensures a >= b ==> a / b >= 1.0
  {
    assert (a / b) * b == a;
    if a < b && a / b >= 1.0 {
      MulMono(1.0, a / b, b);
    }
  }

  lemma ScaledWithinTarget(image: Size, target: Size)
    requires image.width > 0 && image.height > 0
    requires target.width >= 0 && target.height >= 0
    ensures var ratio := FitRatio(image, target);
      0 <= ScaleSide(image.width, ratio) <= target.width && 0 <= ScaleSide(image.height, ratio) <= target.height
  {
    var ratio := FitRatio(image, target);
    ScaleFits(image.width as real, image.height as real, target.width as real, target.height as real, ratio);
    FloorWithin(image.width, ratio, target.width);
    FloorWithin(image.height, ratio, target.height);
  }

  lemma ScaledFillsOneSide(image: Size, target: Size)
    requires image.width > 0 && image.height > 0
    requires target.width >= 0 && target.height >= 0
    ensures var ratio := FitRatio(image, target);
      ScaleSide(image.width, ratio) == target.width || ScaleSide(image.height, ratio) == target.height
  {
    var ratio := FitRatio(image, target);
    ScaleFits(image.width as real, image.height as real, target.width as real, target.height as real, ratio);
    if image.width as real * ratio == target.width as real {
      FloorExact(image.width, ratio, target.width);
    } else {
      FloorExact(image.height, ratio, target.height);
    }
  }

  lemma ScaledAgainstImage(image: Size, target: Size)
    requires image.width > 0 && image.height > 0
    requires target.width >= 0 && target.height >= 0
    ensures var ratio := FitRatio(image, target);
      target.width < image.width || target.height < image.height ==>
        ScaleSide(image.width, ratio) <= image.width && ScaleSide(image.height, ratio) <= image.height
    ensures var ratio := FitRatio(image, target);
      target.width >= image.width && target.height >= image.height ==>
        ScaleSide(image.width, ratio) >= image.width && ScaleSide(image.height, ratio) >= image.height
  {
    var ratio := FitRatio(image, target);
    RatioVersusOne(image.width as real, image.height as real, target.width as real, target.height as real, ratio);
    if target.width < image.width || target.height < image.height {
      ScaleAtMostOne(image.width, ratio);
      ScaleAtMostOne(image.height, ratio);
    } else {
      ScaleAtLeastOne(image.width, ratio);
      ScaleAtLeastOne(image.height, ratio);
    }
  }

  lemma FloorWithin(length: int, ratio: real, n: int)
    requires 0.0 <= length as real * ratio <= n as real
    ensures 0 <= ScaleSide(length, ratio) <= n
  {
    FloorBounds(length as real * ratio, n);
    FloorBounds(length as real * ratio, 0);
  }

  lemma FloorExact(length: int, ratio: real, n: int)
    requires length as real * ratio == n as real
    ensures ScaleSide(length, ratio) == n
  {
    FloorBounds(length as real * ratio, n);
  }

  lemma ScaleAtMostOne(length: int, ratio: real)
    requires length > 0 && 0.0 <= ratio <= 1.0
    ensures ScaleSide(length, ratio) <= length
  {
    MulMono(ratio, 1.0, length as real);
    FloorBounds(length as real * ratio, length);
  }

  lemma ScaleAtLeastOne(length: int, ratio: real)
    requires length > 0 && ratio >= 1.0
    ensures ScaleSide(length, ratio) >= length
  {
    MulMono(1.0, ratio, length as real);
    FloorBounds(length as real * ratio, length);
  }

  /**
   * Truncating both sides with the same ratio keeps the aspect ratio to within a pixel:
   * width/height differs from w/h by less than 1/height on either side.
   */
  lemma {:induction false} ResizeKeepsAspect(image: Size, target: Size)
    requires image.width > 0 && image.height > 0
    requires target.width >= 0 && target.height >= 0
    ensures var r := ResizeProductImage(image, target);
      -image.height < r.width * image.height - r.height * image.width < image.width
  {
    FloorsKeepAspect(image.width, image.height, FitRatio(image, target));
  }

  lemma FloorsKeepAspect(wi: int, hi: int, ratio: real)
    requires wi > 0 && hi > 0 && ratio >= 0.0
    ensures var W := ScaleSide(wi, ratio); var H := ScaleSide(hi, ratio);
      -hi < W * hi - H * wi < wi
  {
    FloorCrossBound(wi, hi, ratio);
    FloorCrossBound(hi, wi, ratio);
  }

  /** Side `a` truncated, times `b`, is less than side `b` truncated, times `a`, plus `a`. */
  lemma FloorCrossBound(a: int, b: int, ratio: real)
    requires a > 0 && b > 0 && ratio >= 0.0
    ensures ScaleSide(a, ratio) * b < ScaleSide(b, ratio) * a + a
  {
    var ar, br := a as real, b as real;
    var A, B := ScaleSide(a, ratio), ScaleSide(b, ratio);
    var sa, sb := ar * ratio, br * ratio;
    assert A as real <= sa by { FloorBounds(sa, 0); }
    assert sb - 1.0 < B as real by { FloorBounds(sb, 0); }
    assert sa * br == sb * ar by { ProductSwap(ar, br, ratio); }
    assert A as real * br < B as real * ar + ar by { AspectCore(ar, br, sa, sb, A as real, B as real); }
    assert (A * b) as real < (B * a) as real + ar by { CastProduct(A, b); CastProduct(B, a); }
  }

  /**
   * Two sides truncated from sw and sh, with sw/sh = w/h: the width, cross-multiplied,
   * exceeds the height by less than w (stated for either side by swapping the roles).
   */
  lemma AspectCore(w: real, h: real, sw: real, sh: real, W: real, H: real)
    requires w > 0.0 && h > 0.0 && sw * h == sh * w
    requires W <= sw && sh - 1.0 < H
    ensures W * h < H * w + w
  {
    MulMono(W, sw, h);
    assert W * h <= sh * w;
    MulStrict(sh, H + 1.0, w);
    assert sh * w < (H + 1.0) * w;
    assert (H + 1.0) * w == H * w + w;
    assert sh * w < H * w + w;
  }

  lemma ProductSwap(w: real, h: real, ratio: real)
    ensures (w * ratio) * h == (h * ratio) * w
  {
  }

  /**
   * `calculate_layout`. The canvas: for an image beyond 800x600, the image plus margins but
   * at least 800x600; for one under 300 on a side, 800x600; otherwise the image plus margins;
   * the table's reserved height always added. The product box lies inside the canvas minus
   * 100 px across and 200 px plus the table down, never exceeds the image, keeps the image's
   * size when that fits and otherwise fills the room along one side; it is centred with at
   * least 50 px each side, 50 px below the top.
   */
  function CalculateLayout(w: int, h: int, m: SizeColorMatrix): (p: LayoutPlan)
    requires w > 0 && h > 0
    ensures var t := ReservedTableHeight(m);
      (w > 800 || h > 600) ==>
        p.canvasWidth == Max(800, w + 100) && p.canvasHeight == Max(600 + t, h + 200 + t)
    ensures var t := ReservedTableHeight(m);
      !(w > 800 || h > 600) && (w < 300 || h < 300) ==> p.canvasWidth == 800 && p.canvasHeight == 600 + t
    ensures var t := ReservedTableHeight(m);
      !(w > 800 || h > 600) && !(w < 300 || h < 300) ==> p.canvasWidth == w + 100 && p.canvasHeight == h + 200 + t
    ensures var t := ReservedTableHeight(m);
      0 <= p.product.width <= p.canvasWidth - 100 && 0 <= p.product.height <= p.canvasHeight - 200 - t
    ensures p.product.width <= w && p.product.height <= h
    ensures var t := ReservedTableHeight(m);
      w <= p.canvasWidth - 100 && h <= p.canvasHeight - 200 - t ==> p.product == Size(w, h)
    ensures var t := ReservedTableHeight(m);
      p.product != Size(w, h) ==>
        p.product.width == p.canvasWidth - 100 || p.product.height == p.canvasHeight - 200 - t
    ensures var t := ReservedTableHeight(m);
      w > p.canvasWidth - 100 || h > p.canvasHeight - 200 - t ==>
        p.product == ResizeProductImage(Size(w, h), Size(p.canvasWidth - 100, p.canvasHeight - 200 - t))
    ensures 2 * p.x <= p.canvasWidth - p.product.width <= 2 * p.x + 1
    ensures 50 <= p.x && p.x + p.product.width <= p.canvasWidth - 50
    ensures p.y == 50
  {
    var t := ReservedTableHeight(m);
    var canvas :=
      if w > 800 || h > 600 then Size(Max(800, w + 100), Max(600 + t, h + 200 + t))
      else if w < 300 || h < 300 then Size(800, 600 + t)
      else Size(w + 100, h + 200 + t);
    var room := Size(canvas.width - 100, canvas.height - 200 - t);
    var product :=
      if w > room.width || h > room.height then ResizeProductImage(Size(w, h), room)
      else Size(Min(w, room.width), Min(h, room.height));
    LayoutPlan(canvas.width, canvas.height, product, (canvas.width - product.width) / 2, 50)
  }

  /**
   * The product box keeps the photo's aspect ratio to within a pixel, whether the photo is
   * kept at its own size or scaled into the room.
   */
  lemma LayoutKeepsAspect(w: int, h: int, m: SizeColorMatrix)
    requires w > 0 && h > 0
    ensures var b := CalculateLayout(w, h, m).product;
      -h < b.width * h - b.height * w < w
  {
    var p := CalculateLayout(w, h, m);
    var t := ReservedTableHeight(m);
    var room := Size(p.canvasWidth - 100, p.canvasHeight - 200 - t);
    if w > room.width || h > room.height {
      ResizeKeepsAspect(Size(w, h), room);
    }
  }

  /** A photo larger than 800x600 is never scaled: the canvas grows around it instead. */
  lemma LargePhotoKeepsItsSize(w: int, h: int, m: SizeColorMatrix)
    requires w > 0 && h > 0 && (w > 800 || h > 600)
    ensures CalculateLayout(w, h, m).product == Size(w, h)
  {
  }

  /** Only a photo under 300 px on one side and over 700x400 on the other is scaled down. */
  lemma ScalingOnlyForNarrowPhotos(w: int, h: int, m: SizeColorMatrix)
    requires w > 0 && h > 0
    requires CalculateLayout(w, h, m).product != Size(w, h)
    ensures w <= 800 && h <= 600 && (w < 300 || h < 300) && (w > 700 || h > 400)
  {
  }

  /** The documented example: a 1200x900 photo without a table. */
  lemma LargePhotoExample()
    ensures var p := CalculateLayout(1200, 900, NoMatrix);
      p.canvasWidth == 1300 && p.canvasHeight == 1100 && p.product == Size(1200, 900) && p.x == 50
  {
  }
}
