/** Crop and zoom geometry: the centred window of the sensor image that keeps the aspect ratio of the
    output, and where touch areas fall in it. `float` is taken as `real`. */
module Crop {
  const CAMERA_MAGIC_ALIGN: nat := 16

  predicate PowerOfTwo(n: nat) {
    n == 1 || (n > 1 && n % 2 == 0 && PowerOfTwo(n / 2))
  }

  datatype Window = Window(x: int, y: int, w: int, h: int)

  /** `(int)v` for a value that is not negative. */
  function Truncated(v: real): (n: nat)
    requires v >= 0.0
    ensures n as real <= v < n as real + 1.0
  {
    v.Floor
  }

  /** The largest window of the output's aspect ratio. */
  function FittedWidth(srcW: nat, srcH: nat, dstW: nat, dstH: nat): nat
    requires srcH > 0 && dstH > 0
  {
    if (srcW == dstW && srcH == dstH) || dstW as real / dstH as real > srcW as real / srcH as real then srcW
    else Truncated(srcH as real * (dstW as real / dstH as real))
  }

  function FittedHeight(srcW: nat, srcH: nat, dstW: nat, dstH: nat): nat
    requires srcH > 0 && dstH > 0 && dstW > 0
  {
    if (srcW == dstW && srcH == dstH) || dstW as real / dstH as real <= srcW as real / srcH as real then srcH
    else Truncated(srcW as real / (dstW as real / dstH as real))
  }

  function Zoomed(size: nat, zoom: nat): nat {
    Truncated(size as real / ((zoom as real + 10.0) / 10.0))
  }

  /** The nearest multiple of `align`, ties upwards, that does not exceed `limit`. */
  function Aligned(size: nat, align: nat, limit: nat): nat
    requires align > 0
  {
    var remain := size % align;
    if remain != 0 && align / 2 <= remain && size + (align - remain) <= limit then size + (align - remain)
    else size - remain
  }

  function CropSize(fitted: nat, src: nat, align: nat, zoom: nat): nat
    requires align > 0
  {
    Aligned(Zoomed(fitted, zoom), align, src)
  }

  /** The window `getCropRectAlign` computes. */
  function CropWindow(srcW: nat, srcH: nat, dstW: nat, dstH: nat, alignW: nat, alignH: nat, zoom: nat): Window
    requires srcW > 0 && srcH > 0 && dstW > 0 && dstH > 0 && alignW > 0 && alignH > 0
  {
    var w := CropSize(FittedWidth(srcW, srcH, dstW, dstH), srcW, alignW, zoom);
    var h := CropSize(FittedHeight(srcW, srcH, dstW, dstH), srcH, alignH, zoom);
    Window((srcW - w) / 2, (srcH - h) / 2, w, h)
  }

  // ---------- The methods ----------

  /** `getCropRectAlign`. */
  method GetCropRectAlign(srcW: nat, srcH: nat, dstW: nat, dstH: nat, alignW: nat, alignH: nat, zoom: nat)
    returns (ok: bool, crop: Window)
    requires PowerOfTwo(alignW) && PowerOfTwo(alignH)
    ensures ok <==> srcW != 0 && srcH != 0 && dstW != 0 && dstH != 0
    ensures ok ==> crop == CropWindow(srcW, srcH, dstW, dstH, alignW, alignH, zoom)
  {
    hide FittedWidth, FittedHeight, Aligned, Zoomed;
    var w, h: nat := srcW, srcH;
    crop := Window(0, 0, w, h);
    if srcW == 0 || srcH == 0 || dstW == 0 || dstH == 0 {
      return false, crop;
    }
    w, h := Fit(srcW, srcH, dstW, dstH);
    w := Shrink(w, zoom);
    h := Shrink(h, zoom);
    w := Align(w, alignW, srcW);
    h := Align(h, alignH, srcH);
    FitsInside(srcW, srcH, dstW, dstH, alignW, alignH, zoom);
    crop := Window((srcW - w) / 2, (srcH - h) / 2, w, h);
    if crop.x < 0 || crop.y < 0 {
      return false, crop;
    }
    ok := true;
  }

  /** The aspect ratio. */
  method Fit(srcW: nat, srcH: nat, dstW: nat, dstH: nat) returns (w: nat, h: nat)
    requires srcW > 0 && srcH > 0 && dstW > 0 && dstH > 0
    ensures w == FittedWidth(srcW, srcH, dstW, dstH) && h == FittedHeight(srcW, srcH, dstW, dstH)
  {
    w, h := srcW, srcH;
    if srcW != dstW || srcH != dstH {
      var srcRatio := srcW as real / srcH as real;
      var dstRatio := dstW as real / dstH as real;
      if dstRatio <= srcRatio {
        w := Truncated(srcH as real * dstRatio);
      } else {
        h := Truncated(srcW as real / dstRatio);
      }
    }
  }

  method Shrink(size: nat, zoom: nat) returns (r: nat)
    ensures r == Zoomed(size, zoom)
  {
    r := size;
    if zoom != 0 {
      var zoomLevel := (zoom as real + 10.0) / 10.0;
      r := Truncated(size as real / zoomLevel);
    } else {
      ZoomZero(size);
    }
  }

  method Align(size: nat, align: nat, limit: nat) returns (r: nat)
    requires align > 0
    ensures r == Aligned(size, align, limit)
  {
    r := size;
    var remain := size % align;
    if remain != 0 {
      if align / 2 <= remain && size + (align - remain) <= limit {
        r := size + (align - remain);
      } else {
        r := size - remain;
      }
    }
  }

  // ---------- Inside, aligned and centred ----------

  lemma ZoomZero(size: nat)
    ensures Zoomed(size, 0) == size
  {
  }

  lemma ZoomShrinks(size: nat, zoom: nat)
    ensures Zoomed(size, zoom) <= size
  {
    ZoomMonotone(size, 0, zoom);
  }

  lemma ZoomMonotone(size: nat, zoom: nat, zoom': nat)
    requires zoom <= zoom'
    ensures Zoomed(size, zoom') <= Zoomed(size, zoom)
  {
    var l, l' := (zoom as real + 10.0) / 10.0, (zoom' as real + 10.0) / 10.0;
    Quotient(size as real, l, l');
  }

  lemma Quotient(a: real, l: real, l': real)
    requires a >= 0.0 && 1.0 <= l <= l'
    ensures a / l' <= a / l
  {
    var q, q' := a / l, a / l';
    assert q * l == a && q' * l' == a;
    assert q' >= 0.0 by {
      Sign(q', l');
    }
    NonNegative(q', l' - l);
    Sign(q - q', l);
  }

  lemma Sign(a: real, b: real)
    requires a * b >= 0.0 && b > 0.0
    ensures a >= 0.0
  {
    if a < 0.0 {
      Product(-a, b);
    }
  }

  lemma Product(a: real, b: real)
    requires a > 0.0 && b > 0.0
    ensures a * b > 0.0
  {
  }

  lemma NonNegative(a: real, b: real)
    requires a >= 0.0 && b >= 0.0
    ensures a * b >= 0.0
  {
  }

  lemma Fitted(srcW: nat, srcH: nat, dstW: nat, dstH: nat)
    requires srcW > 0 && srcH > 0 && dstW > 0 && dstH > 0
    ensures FittedWidth(srcW, srcH, dstW, dstH) <= srcW && FittedHeight(srcW, srcH, dstW, dstH) <= srcH
  {
    var s, d := srcW as real / srcH as real, dstW as real / dstH as real;
    assert s * srcH as real == srcW as real;
    if d <= s {
      NonNegative(s - d, srcH as real);
    } else {
      NonNegative(d - s, srcH as real);
      var q := srcW as real / d;
      assert q * d == srcW as real;
      if q > srcH as real {
        Product(q - srcH as real, d);
      }
    }
  }

  lemma Multiply(a: nat, b: nat, c: nat)
    requires a <= b
    ensures a * c <= b * c
  {
  }

  /** `Aligned` for a size that lies `remain` beyond the multiple `base` of `align`. */
  function Rounded(base: nat, remain: nat, align: nat, half: nat, limit: nat): nat {
    if remain != 0 && half <= remain && base + align <= limit then base + align else base
  }

  lemma Split(size: nat, align: nat, limit: nat) returns (q: nat, base: nat, remain: nat)
    requires align > 0
    ensures base == q * align && size == base + remain && remain < align
    ensures Aligned(size, align, limit) == Rounded(base, remain, align, align / 2, limit)
  {
    q, remain := size / align, size % align;
    base := q * align;
  }

  lemma Blocks(p: nat, q: nat, align: nat)
    requires p < q
    ensures p * align + align <= q * align
  {
    Multiply(p + 1, q, align);
  }

  /** Before zoom and alignment the window spans the source in one direction, and in the other it is
      the largest whole number of pixels within the aspect ratio of the output. */
  lemma KeepsAspect(srcW: nat, srcH: nat, dstW: nat, dstH: nat)
    requires srcW > 0 && srcH > 0 && dstW > 0 && dstH > 0
    ensures
      var w, h := FittedWidth(srcW, srcH, dstW, dstH), FittedHeight(srcW, srcH, dstW, dstH);
      || (h == srcH && LargestWithin(w, srcH, dstW, dstH))
      || (w == srcW && LargestWithin(h, srcW, dstH, dstW))
  {
    hide LargestWithin, Truncated;
    if srcW == dstW && srcH == dstH {
      Same(srcW, srcH);
    } else {
      var ratio := dstW as real / dstH as real;
      Across(srcH, dstW, dstH);
      Down(srcW, dstW, dstH);
      if ratio <= srcW as real / srcH as real {
        assert FittedWidth(srcW, srcH, dstW, dstH) == Truncated(srcH as real * ratio);
      } else {
        assert FittedHeight(srcW, srcH, dstW, dstH) == Truncated(srcW as real / ratio);
      }
    }
  }

  lemma Across(srcH: nat, dstW: nat, dstH: nat)
    requires srcH > 0 && dstW > 0 && dstH > 0
    ensures srcH as real * (dstW as real / dstH as real) >= 0.0
    ensures LargestWithin(Truncated(srcH as real * (dstW as real / dstH as real)), srcH, dstW, dstH)
  {
    hide LargestWithin;
    var v := srcH as real * (dstW as real / dstH as real);
    Forward(srcH as real, dstW as real, dstH as real);
    NonNegative(srcH as real, dstW as real / dstH as real);
    WholePixels(Truncated(v), srcH, dstW, dstH, v);
  }

  lemma Down(srcW: nat, dstW: nat, dstH: nat)
    requires srcW > 0 && dstW > 0 && dstH > 0
    ensures dstW as real / dstH as real > 0.0 && srcW as real / (dstW as real / dstH as real) >= 0.0
    ensures LargestWithin(Truncated(srcW as real / (dstW as real / dstH as real)), srcW, dstH, dstW)
  {
    hide LargestWithin;
    var v := srcW as real / (dstW as real / dstH as real);
    Backward(srcW as real, dstW as real, dstH as real);
    WholePixels(Truncated(v), srcW, dstH, dstW, v);
  }

  /** `n` is the largest whole number with `n` to `side` at most `num` to `den`. */
  predicate LargestWithin(n: nat, side: nat, num: nat, den: nat) {
    n * den <= side * num < (n + 1) * den
  }

  lemma Same(w: nat, h: nat)
    requires h > 0
    ensures LargestWithin(w, h, w, h)
  {
  }

  lemma Forward(a: real, b: real, c: real)
    requires c > 0.0
    ensures a * (b / c) * c == a * b
  {
    var d := b / c;
    assert d * c == b;
    assert a * d * c == a * (d * c);
  }

  lemma Backward(a: real, b: real, c: real)
    requires b > 0.0 && c > 0.0
    ensures a / (b / c) * b == a * c
  {
    var d := b / c;
    var q := a / d;
    assert d * c == b && q * d == a;
    assert q * (d * c) == q * d * c;
  }

  /** `n` is `v` cut to a whole number, where `v` is `side` times `num` over `den`. */
  lemma WholePixels(n: nat, side: nat, num: nat, den: nat, v: real)
    requires den > 0 && n as real <= v < n as real + 1.0 && v * den as real == side as real * num as real
    ensures LargestWithin(n, side, num, den)
  {
    AsReal(side, num);
    Cut(n, n + 1, side * num, den, v);
  }

  lemma Cut(n: nat, m: nat, s: nat, den: nat, v: real)
    requires den > 0 && n as real <= v < m as real && v * den as real == s as real
    ensures n * den <= s < m * den
  {
    Between(n as real, v, m as real, den as real);
    AsReal(n, den);
    AsReal(m, den);
    Compare(n * den, s, m * den);
  }

  lemma Between(a: real, v: real, b: real, c: real)
    requires a <= v < b && c > 0.0
    ensures a * c <= v * c < b * c
  {
    Distribute(v, a, c);
    Distribute(b, v, c);
    NonNegative(v - a, c);
    Product(b - v, c);
  }

  lemma Compare(a: int, b: int, c: int)
    requires a as real <= b as real < c as real
    ensures a <= b < c
  {
  }

  lemma Distribute(a: real, b: real, c: real)
    ensures (a - b) * c == a * c - b * c
  {
  }

  lemma AsReal(a: nat, b: nat)
    ensures (a * b) as real == a as real * b as real
  {
  }

  lemma AlignedFits(size: nat, align: nat, limit: nat)
    requires align > 0 && size <= limit
    ensures Aligned(size, align, limit) <= limit && Aligned(size, align, limit) % align == 0
  {
    hide Aligned;
    var q, base, remain := Split(size, align, limit);
    MultipleOf(q, align);
    MultipleOf(q + 1, align);
    assert base + align == (q + 1) * align;
  }

  function Distance(a: int, b: int): nat {
    if a < b then b - a else a - b
  }

  /** No multiple of `align` within the limit is nearer to the size than the one chosen, and of two that
      are equally near the larger one is. */
  lemma AlignedIsNearest(size: nat, align: nat, limit: nat, m: nat)
    requires PowerOfTwo(align) && size <= limit && m * align <= limit
    ensures Distance(size, Aligned(size, align, limit)) <= Distance(size, m * align)
    ensures Distance(size, Aligned(size, align, limit)) == Distance(size, m * align) ==>
              m * align <= Aligned(size, align, limit)
  {
    hide Aligned;
    var q, base, remain := Split(size, align, limit);
    HalfOfPower(align);
    if m < q {
      Blocks(m, q, align);
    } else if m > q {
      Blocks(q, m, align);
    }
  }

  lemma HalfOfPower(align: nat)
    requires PowerOfTwo(align)
    ensures align > 0 && (align == 1 || align == 2 * (align / 2))
  {
  }

  /** Zooming by `zoom` tenths divides the size by 1 + zoom / 10 and drops the fraction. */
  lemma ZoomDivides(size: nat, zoom: nat)
    ensures LargestWithin(Zoomed(size, zoom), 10, size, zoom + 10)
  {
    hide LargestWithin, Truncated;
    var d := zoom as real + 10.0;
    var v := size as real / (d / 10.0);
    Backward(size as real, d, 10.0);
    WholePixels(Truncated(v), 10, size, zoom + 10, v);
  }

  lemma MultipleOf(q: nat, align: nat)
    requires align > 0
    ensures (q * align) % align == 0
  {
    var d, r := (q * align) / align, (q * align) % align;
    assert q * align == d * align + r;
    if d < q {
      Multiply(d + 1, q, align);
    } else if d > q {
      Multiply(q + 1, d, align);
    }
  }

  /** The window is aligned, inside the source, and centred to within one pixel. */
  lemma FitsInside(srcW: nat, srcH: nat, dstW: nat, dstH: nat, alignW: nat, alignH: nat, zoom: nat)
    requires srcW > 0 && srcH > 0 && dstW > 0 && dstH > 0 && alignW > 0 && alignH > 0
    ensures
      var c := CropWindow(srcW, srcH, dstW, dstH, alignW, alignH, zoom);
      && c.w % alignW == 0 && c.h % alignH == 0
      && 0 <= c.x && c.x + c.w <= srcW && 0 <= c.y && c.y + c.h <= srcH
      && 0 <= (srcW - (c.x + c.w)) - c.x <= 1 && 0 <= (srcH - (c.y + c.h)) - c.y <= 1
  {
    var w, h := FittedWidth(srcW, srcH, dstW, dstH), FittedHeight(srcW, srcH, dstW, dstH);
    Fitted(srcW, srcH, dstW, dstH);
    ZoomShrinks(w, zoom);
    ZoomShrinks(h, zoom);
    AlignedFits(Zoomed(w, zoom), alignW, srcW);
    AlignedFits(Zoomed(h, zoom), alignH, srcH);
  }

  // ---------- Nesting ----------

  predicate Contains(a: Window, b: Window) {
    a.x <= b.x && b.x + b.w <= a.x + a.w && a.y <= b.y && b.y + b.h <= a.y + a.h
  }

  lemma AlignedMonotone(a: nat, b: nat, align: nat, limit: nat)
    requires align > 0 && a <= b
    ensures Aligned(a, align, limit) <= Aligned(b, align, limit)
  {
    hide Aligned, Rounded;
    var p, low, r := Split(a, align, limit);
    var q, high, r' := Split(b, align, limit);
    if p < q {
      Blocks(p, q, align);
    } else if p > q {
      Blocks(q, p, align);
    }
    RoundedMonotone(low, r, high, r', align, align / 2, limit);
  }

  lemma RoundedMonotone(low: nat, r: nat, high: nat, r': nat, align: nat, half: nat, limit: nat)
    requires low + r <= high + r' && (low == high || low + align <= high)
    ensures Rounded(low, r, align, half, limit) <= Rounded(high, r', align, half, limit)
  {
  }

  /** A larger zoom gives a window inside that of a smaller zoom. */
  lemma ZoomNests(srcW: nat, srcH: nat, dstW: nat, dstH: nat, alignW: nat, alignH: nat, zoom: nat, zoom': nat)
    requires srcW > 0 && srcH > 0 && dstW > 0 && dstH > 0 && alignW > 0 && alignH > 0 && zoom <= zoom'
    ensures
      var outer := CropWindow(srcW, srcH, dstW, dstH, alignW, alignH, zoom);
      var inner := CropWindow(srcW, srcH, dstW, dstH, alignW, alignH, zoom');
      Contains(outer, inner) && inner.w <= outer.w && inner.h <= outer.h
  {
    var w, h := FittedWidth(srcW, srcH, dstW, dstH), FittedHeight(srcW, srcH, dstW, dstH);
    ZoomMonotone(w, zoom, zoom');
    ZoomMonotone(h, zoom, zoom');
    AlignedMonotone(Zoomed(w, zoom'), Zoomed(w, zoom), alignW, srcW);
    AlignedMonotone(Zoomed(h, zoom'), Zoomed(h, zoom), alignH, srcH);
  }

  // ---------- The crop region of m_setZoom ----------

  /** `ALIGN(v, 2)`. */
  function Even(v: int): int {
    if v % 2 == 0 then v else v + 1
  }

  function Region(srcW: nat, srcH: nat, dstW: nat, dstH: nat, zoom: nat): Window
    requires srcW > 0 && srcH > 0 && dstW > 0 && dstH > 0
  {
    var c := CropWindow(srcW, srcH, dstW, dstH, CAMERA_MAGIC_ALIGN, 2, zoom);
    Window(Even(c.x), Even(c.y), c.w, c.h)
  }

  /** `m_setZoom`: installs the crop region, unless a size is zero. With a zooming lens only the
      aspect ratio is adjusted. */
  method SetZoom(cropRegion: array<int>, hwZoom: bool, zoom: nat, srcW: nat, srcH: nat, dstW: nat, dstH: nat)
    returns (ok: bool)
    requires cropRegion.Length == 4
    modifies cropRegion
    ensures ok <==> srcW != 0 && srcH != 0 && dstW != 0 && dstH != 0
    ensures !ok ==> cropRegion[..] == old(cropRegion[..])
    ensures ok ==>
              var r := Region(srcW, srcH, dstW, dstH, if hwZoom then 0 else zoom);
              cropRegion[..] == [r.x, r.y, r.w, r.h]
  {
    var realZoom := if hwZoom then 0 else zoom;
    assert PowerOfTwo(CAMERA_MAGIC_ALIGN) && PowerOfTwo(2) by {
      assert PowerOfTwo(1) && PowerOfTwo(4) && PowerOfTwo(8);
    }
    var crop;
    ok, crop := GetCropRectAlign(srcW, srcH, dstW, dstH, CAMERA_MAGIC_ALIGN, 2, realZoom);
    if !ok {
      return;
    }
    cropRegion[0] := Even(crop.x);
    cropRegion[1] := Even(crop.y);
    cropRegion[2] := crop.w;
    cropRegion[3] := crop.h;
  }

  /** Rounding the corner up to even coordinates moves the window by at most a pixel, keeps it inside
      the source, and keeps larger zooms inside smaller ones. */
  lemma RegionInside(srcW: nat, srcH: nat, dstW: nat, dstH: nat, zoom: nat)
    requires srcW > 0 && srcH > 0 && dstW > 0 && dstH > 0
    ensures
      var r := Region(srcW, srcH, dstW, dstH, zoom);
      && r.x % 2 == 0 && r.y % 2 == 0 && r.w % CAMERA_MAGIC_ALIGN == 0 && r.h % 2 == 0
      && 0 <= r.x && 0 <= r.w && r.x + r.w <= srcW && 0 <= r.y && 0 <= r.h && r.y + r.h <= srcH
  {
    hide CropSize, Even;
    var c := CropWindow(srcW, srcH, dstW, dstH, CAMERA_MAGIC_ALIGN, 2, zoom);
    FitsInside(srcW, srcH, dstW, dstH, CAMERA_MAGIC_ALIGN, 2, zoom);
    SixteenIsEven(c.w);
    EvenInside(srcW, c.w);
    EvenInside(srcH, c.h);
  }

  lemma EvenInside(src: nat, w: nat)
    requires w <= src && w % 2 == 0
    ensures
      var x := Even((src - w) / 2);
      x % 2 == 0 && 0 <= x && x + w <= src
  {
  }

  lemma RegionsNest(srcW: nat, srcH: nat, dstW: nat, dstH: nat, zoom: nat, zoom': nat)
    requires srcW > 0 && srcH > 0 && dstW > 0 && dstH > 0 && zoom <= zoom'
    ensures Contains(Region(srcW, srcH, dstW, dstH, zoom), Region(srcW, srcH, dstW, dstH, zoom'))
  {
    hide CropSize, Even;
    var c := CropWindow(srcW, srcH, dstW, dstH, CAMERA_MAGIC_ALIGN, 2, zoom);
    var d := CropWindow(srcW, srcH, dstW, dstH, CAMERA_MAGIC_ALIGN, 2, zoom');
    FitsInside(srcW, srcH, dstW, dstH, CAMERA_MAGIC_ALIGN, 2, zoom);
    FitsInside(srcW, srcH, dstW, dstH, CAMERA_MAGIC_ALIGN, 2, zoom');
    ZoomNests(srcW, srcH, dstW, dstH, CAMERA_MAGIC_ALIGN, 2, zoom, zoom');
    SixteenIsEven(c.w);
    SixteenIsEven(d.w);
    EvenNests(srcW, c.w, d.w);
    EvenNests(srcH, c.h, d.h);
  }

  lemma SixteenIsEven(w: int)
    requires w % CAMERA_MAGIC_ALIGN == 0
    ensures w % 2 == 0
  {
  }

  lemma EvenNests(src: nat, w: nat, w': nat)
    requires w' <= w <= src && w % 2 == 0 && w' % 2 == 0
    ensures Even((src - w) / 2) <= Even((src - w') / 2)
    ensures Even((src - w') / 2) + w' <= Even((src - w) / 2) + w
  {
    var d := (w - w') / 2;
    assert w - w' == 2 * d;
    assert (src - w') / 2 == (src - w) / 2 + d;
  }

  // ---------- When the region is empty ----------

  function Min(a: int, b: int): int {
    if a < b then a else b
  }

  lemma CrossMultiply(a: nat, b: nat, c: nat, d: nat)
    requires b > 0 && d > 0
    ensures a as real / b as real <= c as real / d as real <==> d * a <= c * b
  {
    var p, q := a as real / b as real, c as real / d as real;
    var both := b as real * d as real;
    Product(b as real, d as real);
    assert p * both == a as real * d as real by {
      assert p * b as real == a as real;
      assert p * both == p * b as real * d as real;
    }
    assert q * both == c as real * b as real by {
      assert q * d as real == c as real;
      assert q * both == q * d as real * b as real;
    }
    AsReal(a, d);
    AsReal(c, b);
    assert a * d == d * a;
    Distribute(q, p, both);
    if p <= q {
      NonNegative(q - p, both);
    } else if d * a <= c * b {
      Sign(q - p, both);
    }
  }

  lemma WholeQuotient(n: nat, s: nat, den: nat)
    requires den > 0
    ensures n * den <= s ==> n <= s / den
    ensures s < (n + 1) * den ==> s / den <= n
  {
    var q, r := s / den, s % den;
    assert s == q * den + r;
    if q < n {
      Multiply(q + 1, n, den);
    } else if n < q {
      Multiply(n + 1, q, den);
    }
  }

  /** The source is narrower than the output, or the window is cut to the output's ratio. */
  lemma WidthCases(srcW: nat, srcH: nat, dstW: nat, dstH: nat)
    requires srcW > 0 && srcH > 0 && dstW > 0 && dstH > 0
    ensures
      var w := FittedWidth(srcW, srcH, dstW, dstH);
      w <= srcW && ((w == srcW && srcW * dstH <= srcH * dstW) || LargestWithin(w, srcH, dstW, dstH))
  {
    hide Truncated, LargestWithin;
    CrossMultiply(dstW, dstH, srcW, srcH);
    Fitted(srcW, srcH, dstW, dstH);
    Across(srcH, dstW, dstH);
  }

  lemma HeightCases(srcW: nat, srcH: nat, dstW: nat, dstH: nat)
    requires srcW > 0 && srcH > 0 && dstW > 0 && dstH > 0
    ensures
      var h := FittedHeight(srcW, srcH, dstW, dstH);
      h <= srcH && ((h == srcH && srcH * dstW <= srcW * dstH) || LargestWithin(h, srcW, dstH, dstW))
  {
    hide Truncated, LargestWithin;
    CrossMultiply(dstW, dstH, srcW, srcH);
    Fitted(srcW, srcH, dstW, dstH);
    Down(srcW, dstW, dstH);
  }

  lemma WidthIsMin(srcW: nat, srcH: nat, dstW: nat, dstH: nat)
    requires srcW > 0 && srcH > 0 && dstW > 0 && dstH > 0
    ensures FittedWidth(srcW, srcH, dstW, dstH) == Min(srcW, srcH * dstW / dstH)
  {
    hide FittedWidth;
    WidthCases(srcW, srcH, dstW, dstH);
    WholeQuotient(srcW, srcH * dstW, dstH);
    WholeQuotient(FittedWidth(srcW, srcH, dstW, dstH), srcH * dstW, dstH);
  }

  lemma HeightIsMin(srcW: nat, srcH: nat, dstW: nat, dstH: nat)
    requires srcW > 0 && srcH > 0 && dstW > 0 && dstH > 0
    ensures FittedHeight(srcW, srcH, dstW, dstH) == Min(srcH, srcW * dstH / dstW)
  {
    hide FittedHeight;
    HeightCases(srcW, srcH, dstW, dstH);
    WholeQuotient(srcH, srcW * dstH, dstW);
    WholeQuotient(FittedHeight(srcW, srcH, dstW, dstH), srcW * dstH, dstW);
  }

  /** The window before zoom and alignment, in whole numbers. */
  lemma FittedIsMin(srcW: nat, srcH: nat, dstW: nat, dstH: nat)
    requires srcW > 0 && srcH > 0 && dstW > 0 && dstH > 0
    ensures FittedWidth(srcW, srcH, dstW, dstH) == Min(srcW, srcH * dstW / dstH)
    ensures FittedHeight(srcW, srcH, dstW, dstH) == Min(srcH, srcW * dstH / dstW)
  {
    hide FittedWidth, FittedHeight, Min;
    WidthIsMin(srcW, srcH, dstW, dstH);
    HeightIsMin(srcW, srcH, dstW, dstH);
  }

  lemma AlignedPositive(size: nat, align: nat, half: nat, limit: nat)
    requires align > 0 && half == align / 2 && half > 0 && size <= limit
    ensures Aligned(size, align, limit) > 0 <==> align <= limit && half <= size
  {
    hide Aligned;
    var q, base, remain := Split(size, align, limit);
    if q > 0 {
      Multiply(1, q, align);
    }
  }

  lemma ZoomedAtLeast(size: nat, zoom: nat, n: nat)
    ensures n <= Zoomed(size, zoom) <==> n * (zoom + 10) <= 10 * size
  {
    hide Zoomed;
    ZoomDivides(size, zoom);
    var z := Zoomed(size, zoom);
    if n <= z {
      Multiply(n, z, zoom + 10);
    } else {
      Multiply(z + 1, n, zoom + 10);
    }
  }

  /** Sizes and zoom for which the crop region is not empty: half a block of what the output's aspect
      ratio leaves must remain after the zoom, and a whole block must fit the source. */
  predicate Visible(srcW: nat, srcH: nat, dstW: nat, dstH: nat, zoom: nat)
    requires dstW > 0 && dstH > 0
  {
    && CAMERA_MAGIC_ALIGN <= srcW && CAMERA_MAGIC_ALIGN / 2 * (zoom + 10) <= 10 * Min(srcW, srcH * dstW / dstH)
    && 2 <= srcH && zoom + 10 <= 10 * Min(srcH, srcW * dstH / dstW)
  }

  lemma RegionNotEmpty(srcW: nat, srcH: nat, dstW: nat, dstH: nat, zoom: nat)
    requires srcW > 0 && srcH > 0 && dstW > 0 && dstH > 0
    ensures
      var r := Region(srcW, srcH, dstW, dstH, zoom);
      r.w > 0 && r.h > 0 <==> Visible(srcW, srcH, dstW, dstH, zoom)
  {
    hide FittedWidth, FittedHeight, Zoomed, Aligned, Min;
    var w, h := FittedWidth(srcW, srcH, dstW, dstH), FittedHeight(srcW, srcH, dstW, dstH);
    FittedIsMin(srcW, srcH, dstW, dstH);
    Fitted(srcW, srcH, dstW, dstH);
    ZoomShrinks(w, zoom);
    ZoomShrinks(h, zoom);
    ZoomedAtLeast(w, zoom, CAMERA_MAGIC_ALIGN / 2);
    ZoomedAtLeast(h, zoom, 1);
    AlignedPositive(Zoomed(w, zoom), CAMERA_MAGIC_ALIGN, CAMERA_MAGIC_ALIGN / 2, srcW);
    AlignedPositive(Zoomed(h, zoom), 2, 1, srcH);
  }

  // ---------- The region in sizes alone ----------

  /** The installed region is centred, up to the two pixels that the even corner costs. */
  lemma RegionCentred(srcW: nat, srcH: nat, dstW: nat, dstH: nat, zoom: nat)
    requires srcW > 0 && srcH > 0 && dstW > 0 && dstH > 0
    ensures
      var r := Region(srcW, srcH, dstW, dstH, zoom);
      && -2 <= (srcW - r.w) - 2 * r.x <= 1
      && -2 <= (srcH - r.h) - 2 * r.y <= 1
  {
    hide CropSize;
    FitsInside(srcW, srcH, dstW, dstH, CAMERA_MAGIC_ALIGN, 2, zoom);
  }

  /** `v` is the multiple of `align` within `limit` that is nearest to `size`; of two, the larger. */
  ghost predicate IsNearest(v: int, size: int, align: nat, limit: nat) {
    && 0 <= v <= limit && align > 0 && v % align == 0
    && forall m: nat :: m * align <= limit ==>
         Distance(size, v) <= Distance(size, m * align) && (Distance(size, v) == Distance(size, m * align) ==> m * align <= v)
  }

  lemma AlignedNearest(size: nat, align: nat, limit: nat)
    requires PowerOfTwo(align) && align > 0 && size <= limit
    ensures IsNearest(Aligned(size, align, limit), size, align, limit)
  {
    hide Aligned;
    AlignedFits(size, align, limit);
    forall m: nat | m * align <= limit
      ensures
        && Distance(size, Aligned(size, align, limit)) <= Distance(size, m * align)
        && (Distance(size, Aligned(size, align, limit)) == Distance(size, m * align) ==>
              m * align <= Aligned(size, align, limit))
    {
      AlignedIsNearest(size, align, limit, m);
    }
  }

  lemma ZoomedIsQuotient(size: nat, zoom: nat)
    ensures Zoomed(size, zoom) == 10 * size / (zoom + 10)
  {
    hide Zoomed;
    ZoomDivides(size, zoom);
    WholeQuotient(Zoomed(size, zoom), 10 * size, zoom + 10);
  }

  lemma NearestAfterZoom(size: nat, src: nat, align: nat, zoom: nat)
    requires PowerOfTwo(align) && align > 0 && size <= src
    ensures IsNearest(CropSize(size, src, align, zoom), 10 * size / (zoom + 10), align, src)
  {
    hide Zoomed, Aligned, IsNearest;
    ZoomShrinks(size, zoom);
    ZoomedIsQuotient(size, zoom);
    AlignedNearest(Zoomed(size, zoom), align, src);
  }

  /** How large the installed region is: the source cut to the output's aspect ratio, divided by the
      zoom, and brought to the nearest multiples of 16 and 2 that fit the source. */
  lemma RegionSize(srcW: nat, srcH: nat, dstW: nat, dstH: nat, zoom: nat)
    requires srcW > 0 && srcH > 0 && dstW > 0 && dstH > 0
    ensures
      var r := Region(srcW, srcH, dstW, dstH, zoom);
      && IsNearest(r.w, 10 * Min(srcW, srcH * dstW / dstH) / (zoom + 10), 16, srcW)
      && IsNearest(r.h, 10 * Min(srcH, srcW * dstH / dstW) / (zoom + 10), 2, srcH)
  {
    hide FittedWidth, FittedHeight, CropSize, Min, IsNearest;
    FittedIsMin(srcW, srcH, dstW, dstH);
    Fitted(srcW, srcH, dstW, dstH);
    assert PowerOfTwo(16) && PowerOfTwo(2) by {
      assert PowerOfTwo(1) && PowerOfTwo(4) && PowerOfTwo(8);
    }
    NearestAfterZoom(FittedWidth(srcW, srcH, dstW, dstH), srcW, 16, zoom);
    NearestAfterZoom(FittedHeight(srcW, srcH, dstW, dstH), srcH, 2, zoom);
  }
}
