/** Where a touch area given in Android's coordinates, -1000 to 1000 across the visible picture,
    falls on the sensor: `m_AndroidArea2HWArea`, in 32-bit integers. */
module FocusArea {
  import opened Crop

  datatype Rect = Rect(x1: int, y1: int, x2: int, y2: int)

  const TWO_31: int := 0x8000_0000

  /** A 32-bit `int` after overflow. */
  function Wrap(v: int): (r: int)
    ensures -TWO_31 <= r < TWO_31 && (-TWO_31 <= v < TWO_31 ==> r == v)
  {
    (v + TWO_31) % 0x1_0000_0000 - TWO_31
  }

  /** C's division by 2000: towards zero. */
  function Div2000(v: int): int {
    if v < 0 then -(-v / 2000) else v / 2000
  }

  function Scaled(a: int, size: int): int {
    Div2000(Wrap(Wrap(a + 1000) * size))
  }

  function Clamped(v: int, size: int): int {
    if v < 0 then 0 else if size <= v then size - 1 else v
  }

  /** `m_AndroidArea2HWArea` with the installed crop region. */
  method AreaToHardware(rect: Rect, region: Window) returns (r: Rect)
    ensures r == Mapped(rect, region)
  {
    var x1, y1 := Scaled(rect.x1, region.w), Scaled(rect.y1, region.h);
    var x2, y2 := Scaled(rect.x2, region.w), Scaled(rect.y2, region.h);
    if x1 < 0 {
      x1 := 0;
    } else if region.w <= x1 {
      x1 := region.w - 1;
    }
    if y1 < 0 {
      y1 := 0;
    } else if region.h <= y1 {
      y1 := region.h - 1;
    }
    if x2 < 0 {
      x2 := 0;
    } else if region.w <= x2 {
      x2 := region.w - 1;
    }
    if y2 < 0 {
      y2 := 0;
    } else if region.h <= y2 {
      y2 := region.h - 1;
    }
    if x2 < x1 {
      x2 := x1;
    }
    if y2 < y1 {
      y2 := y1;
    }
    r := Rect(x1 + region.x, y1 + region.y, x2 + region.x, y2 + region.y);
  }

  function Max(a: int, b: int): int {
    if a < b then b else a
  }

  function Mapped(rect: Rect, region: Window): Rect {
    var x1, y1 := Clamped(Scaled(rect.x1, region.w), region.w), Clamped(Scaled(rect.y1, region.h), region.h);
    var x2, y2 := Clamped(Scaled(rect.x2, region.w), region.w), Clamped(Scaled(rect.y2, region.h), region.h);
    Rect(region.x + x1, region.y + y1, region.x + Max(x1, x2), region.y + Max(y1, y2))
  }

  predicate Ordered(r: Rect) {
    r.x1 <= r.x2 && r.y1 <= r.y2
  }

  predicate Within(r: Rect, region: Window) {
    && region.x <= r.x1 < region.x + region.w && region.x <= r.x2 < region.x + region.w
    && region.y <= r.y1 < region.y + region.h && region.y <= r.y2 < region.y + region.h
  }

  /** Whatever rectangle the application gives, the result is ordered and inside the crop region,
      exactly when that region is not empty. */
  lemma AreaInsideCrop(rect: Rect, region: Window)
    ensures Ordered(Mapped(rect, region)) && Within(Mapped(rect, region), region) <==> region.w > 0 && region.h > 0
  {
    hide Scaled;
  }

  /** With the region that `m_setZoom` installs, whatever rectangle the application gives: the area is
      ordered and inside the region exactly when the sizes and the zoom leave one, and then it lies in
      the source image. */
  lemma AreaInsideSource(rect: Rect, srcW: nat, srcH: nat, dstW: nat, dstH: nat, zoom: nat)
    requires srcW > 0 && srcH > 0 && dstW > 0 && dstH > 0
    ensures
      var region := Region(srcW, srcH, dstW, dstH, zoom);
      var r := Mapped(rect, region);
      && (Ordered(r) && Within(r, region) <==> Visible(srcW, srcH, dstW, dstH, zoom))
      && (Visible(srcW, srcH, dstW, dstH, zoom) ==> 0 <= r.x1 <= r.x2 < srcW && 0 <= r.y1 <= r.y2 < srcH)
  {
    hide Region, Mapped, Visible;
    RegionInside(srcW, srcH, dstW, dstH, zoom);
    RegionNotEmpty(srcW, srcH, dstW, dstH, zoom);
    AreaInsideCrop(rect, Region(srcW, srcH, dstW, dstH, zoom));
  }

  /** The whole Android area is the whole crop region, and its centre the middle of it. */
  lemma WholeAreaIsCrop(region: Window)
    requires 0 < region.w <= 1_000_000 && 0 < region.h <= 1_000_000
    ensures Mapped(Rect(-1000, -1000, 1000, 1000), region) ==
            Rect(region.x, region.y, region.x + region.w - 1, region.y + region.h - 1)
    ensures Mapped(Rect(0, 0, 0, 0), region).x1 == region.x + region.w / 2
    ensures Mapped(Rect(0, 0, 0, 0), region).y1 == region.y + region.h / 2
  {
    ScaledEnds(region.w);
    ScaledEnds(region.h);
  }

  lemma ScaledEnds(size: nat)
    requires size <= 1_000_000
    ensures Scaled(-1000, size) == 0 && Scaled(1000, size) == size && Scaled(0, size) == size / 2
  {
  }

  /** Android's coordinates fall in proportion: each a whole number of pixels, rounded down, from the
      corner of the region, and the last edge on its last pixel. */
  lemma AreaIsProportional(rect: Rect, region: Window)
    requires Ordered(rect) && 0 < region.w <= 1_000_000 && 0 < region.h <= 1_000_000
    requires -1000 <= rect.x1 && rect.x2 <= 1000 && -1000 <= rect.y1 && rect.y2 <= 1000
    ensures
      var r := Mapped(rect, region);
      && r.x1 == region.x + Min((rect.x1 + 1000) * region.w / 2000, region.w - 1)
      && r.x2 == region.x + Min((rect.x2 + 1000) * region.w / 2000, region.w - 1)
      && r.y1 == region.y + Min((rect.y1 + 1000) * region.h / 2000, region.h - 1)
      && r.y2 == region.y + Min((rect.y2 + 1000) * region.h / 2000, region.h - 1)
  {
    hide Scaled, Clamped, Min;
    Edges(rect.x1, rect.x2, region.w);
    Edges(rect.y1, rect.y2, region.h);
  }

  lemma Edges(a: int, b: int, size: nat)
    requires -1000 <= a <= b <= 1000 && 0 < size <= 1_000_000
    ensures 0 <= (a + 1000) * size && 0 <= (b + 1000) * size
    ensures Clamped(Scaled(a, size), size) == Min((a + 1000) * size / 2000, size - 1)
    ensures Clamped(Scaled(b, size), size) == Min((b + 1000) * size / 2000, size - 1)
    ensures Clamped(Scaled(a, size), size) <= Clamped(Scaled(b, size), size)
  {
    hide Scaled, InRange;
    ScaledLinear(a, size);
    ScaledLinear(b, size);
    ScaledMonotone(a, b, size);
  }

  lemma ScaledLinear(a: int, size: nat)
    requires -1000 <= a <= 1000 && size <= 1_000_000
    ensures InRange(a, size) && 0 <= (a + 1000) * size && Scaled(a, size) == (a + 1000) * size / 2000
  {
    AndroidInRange(a, size);
    Ordering(0, a + 1000, size);
  }

  /** A product that overflows turns back: an edge far to the right maps to the left end. */
  lemma OverflowTurnsBack(a: int, region: Window)
    requires 0 < region.w && 0 < a + 1000 < TWO_31 <= (a + 1000) * region.w < 2 * TWO_31
    ensures Mapped(Rect(a, 0, a, 0), region).x1 == region.x
  {
  }

  // ---------- Containment ----------

  predicate Covers(a: Rect, b: Rect) {
    a.x1 <= b.x1 && b.x2 <= a.x2 && a.y1 <= b.y1 && b.y2 <= a.y2
  }

  /** No product overflows. */
  predicate InRange(a: int, size: int) {
    -TWO_31 <= a + 1000 < TWO_31 && -TWO_31 <= (a + 1000) * size < TWO_31
  }

  predicate RectInRange(r: Rect, region: Window) {
    InRange(r.x1, region.w) && InRange(r.x2, region.w) && InRange(r.y1, region.h) && InRange(r.y2, region.h)
  }

  lemma ScaledMonotone(a: int, b: int, size: nat)
    requires a <= b && InRange(a, size) && InRange(b, size)
    ensures Scaled(a, size) <= Scaled(b, size)
  {
    Ordering(a + 1000, b + 1000, size);
    DivMonotone((a + 1000) * size, (b + 1000) * size);
  }

  lemma Ordering(a: int, b: int, c: nat)
    requires a <= b
    ensures a * c <= b * c
  {
  }

  lemma DivMonotone(a: int, b: int)
    requires a <= b
    ensures Div2000(a) <= Div2000(b)
  {
  }

  /** A smaller area maps into the image of a larger one, as long as no product overflows. */
  lemma ContainmentKept(outer: Rect, inner: Rect, region: Window)
    requires Covers(outer, inner) && Ordered(inner) && region.w > 0 && region.h > 0
    requires RectInRange(outer, region) && RectInRange(inner, region)
    ensures Covers(Mapped(outer, region), Mapped(inner, region))
  {
    hide Scaled, InRange;
    ScaledMonotone(outer.x1, inner.x1, region.w);
    ScaledMonotone(inner.x2, outer.x2, region.w);
    ScaledMonotone(outer.y1, inner.y1, region.h);
    ScaledMonotone(inner.y2, outer.y2, region.h);
    ScaledMonotone(inner.x1, inner.x2, region.w);
    ScaledMonotone(inner.y1, inner.y2, region.h);
  }

  /** Android's own coordinates never overflow on a sensor of up to a million pixels across. */
  lemma AndroidInRange(a: int, size: nat)
    requires -1000 <= a <= 1000 && size <= 1_000_000
    ensures InRange(a, size)
  {
    Ordering(0, a + 1000, size);
    Ordering(a + 1000, 2000, size);
  }
}
