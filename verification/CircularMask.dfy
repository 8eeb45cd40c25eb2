/**
 The circular pixel mask of the radial detector
 (`pixel_in_circular_mask`, crates/signal-auras-core/src/screen_state.rs:1323-1343).

 Lengths are doubled so that the centre of an even side is a whole number. The comparison runs on
 64-bit signed integers; an operation whose result does not fit is a checked `None` here.
*/
module CircularMask {
  import opened Wrappers

  type U32 = n: nat | n < 0x1_0000_0000

  const I64_MIN: int := -0x8000_0000_0000_0000
  const I64_MAX: int := 0x7fff_ffff_ffff_ffff

  datatype Roi = Roi(x: U32, y: U32, w: U32, h: U32)

  function Min(a: nat, b: nat): nat {
    if a <= b then a else b
  }

  /** The inset in force: never more than half of either side. */
  function Inset(inset: nat, roi: Roi): nat {
    Min(Min(inset, roi.w / 2), roi.h / 2)
  }

  function InnerWidth(inset: nat, roi: Roi): nat {
    SatSub(roi.w, Inset(inset, roi) * 2)
  }

  function InnerHeight(inset: nat, roi: Roi): nat {
    SatSub(roi.h, Inset(inset, roi) * 2)
  }

  /** Twice the horizontal distance from the centre; a pixel before the region counts as its edge. */
  function Dx2(roi: Roi, x: nat): int {
    SatSub(x, roi.x) * 2 - (roi.w - 1)
  }

  function Dy2(roi: Roi, y: nat): int {
    SatSub(y, roi.y) * 2 - (roi.h - 1)
  }

  // ---- 64-bit arithmetic ----

  function Checked(v: int): Option<int> {
    if I64_MIN <= v <= I64_MAX then Some(v) else None
  }

  function Times(a: Option<int>, b: int): Option<int> {
    if a.None? then None else Checked(a.value * b)
  }

  function Plus(a: Option<int>, b: Option<int>): Option<int> {
    if a.None? || b.None? then None else Checked(a.value + b.value)
  }

  /** The comparison as it is evaluated, factor by factor. */
  function Compare(dx2: int, dy2: int, rx: nat, ry: nat): Option<bool> {
    var left := Times(Times(Times(Checked(dx2), dx2), ry), ry);
    var right := Times(Times(Times(Checked(dy2), dy2), rx), rx);
    var sum := Plus(left, right);
    var limit := Times(Times(Times(Checked(rx), rx), ry), ry);
    if sum.None? || limit.None? then None else Some(sum.value <= limit.value)
  }

  function PixelInCircularMask(mask: Option<nat>, roi: Roi, x: U32, y: U32): Option<bool> {
    if mask.None? then Some(true)
    else
      var rx, ry := InnerWidth(mask.value, roi), InnerHeight(mask.value, roi);
      if rx == 0 || ry == 0 then Some(false) else Compare(Dx2(roi, x), Dy2(roi, y), rx, ry)
  }

  // ---- the mask as geometry ----

  function Sq(a: int): (r: nat)
    ensures a != 0 ==> r > 0
  {
    Square(a);
    a * a
  }

  lemma Square(a: int)
    ensures a * a >= 0
    ensures a != 0 ==> a * a > 0
  {
  }

  /** The inside of the ellipse with half-axes rx/2 and ry/2, in exact arithmetic. */
  predicate InEllipse(dx2: int, dy2: int, rx: nat, ry: nat) {
    Sq(dx2) * Sq(ry) + Sq(dy2) * Sq(rx) <= Sq(rx) * Sq(ry)
  }

  predicate Accepts(inset: nat, roi: Roi, x: nat, y: nat) {
    && InnerWidth(inset, roi) > 0 && InnerHeight(inset, roi) > 0
    && InEllipse(Dx2(roi, x), Dy2(roi, y), InnerWidth(inset, roi), InnerHeight(inset, roi))
  }

  /** The inset in force is the largest one, up to the configured one, that is at most half of either side. */
  lemma InsetIsLargest(inset: nat, roi: Roi)
    ensures Inset(inset, roi) <= inset && Inset(inset, roi) * 2 <= roi.w && Inset(inset, roi) * 2 <= roi.h
    ensures forall e: nat :: e <= inset && e * 2 <= roi.w && e * 2 <= roi.h ==> e <= Inset(inset, roi)
  {
  }

  /** An inset beyond half of the shorter side accepts exactly what that half accepts. */
  lemma DeepInsetIsHalf(inset: nat, roi: Roi, x: U32, y: U32)
    requires inset * 2 >= roi.w || inset * 2 >= roi.h
    ensures var half := (if roi.w <= roi.h then roi.w else roi.h) / 2;
      && PixelInCircularMask(Some(inset), roi, x, y) == PixelInCircularMask(Some(half), roi, x, y)
      && Accepts(inset, roi, x, y) == Accepts(half, roi, x, y)
  {
    hide Compare;
    hide InEllipse;
    hide Dx2;
    hide Dy2;
  }

  // ---- the ellipse in its usual form ----

  /** A coordinate measured from the middle of a side, over half of what the inset leaves of the side. */
  function Scaled(origin: nat, side: nat, inset: nat, v: nat): real
    requires inset * 2 < side
  {
    (v as real - (origin as real + (side as real - 1.0) / 2.0)) / (side as real / 2.0 - inset as real)
  }

  lemma ScaledIsRatio(origin: nat, side: nat, inset: nat, v: nat)
    requires inset * 2 < side && v >= origin
    ensures Scaled(origin, side, inset, v) * (side - inset * 2) as real == (SatSub(v, origin) * 2 - (side - 1)) as real
  {
    var above, below := v as real - (origin as real + (side as real - 1.0) / 2.0), side as real / 2.0 - inset as real;
    assert (SatSub(v, origin) * 2 - (side - 1)) as real == 2.0 * above && (side - inset * 2) as real == 2.0 * below;
    assert above / below * below == above;
    assert above / below * (2.0 * below) == 2.0 * above;
  }

  lemma RatioForm(dx: int, dy: int, rx: nat, ry: nat, u: real, v: real)
    requires rx > 0 && ry > 0 && u * rx as real == dx as real && v * ry as real == dy as real
    ensures InEllipse(dx, dy, rx, ry) <==> u * u + v * v <= 1.0
  {
    SquaredRatio(dx, rx, u);
    SquaredRatio(dy, ry, v);
    SquaredForm(Sq(dx), Sq(dy), Sq(rx), Sq(ry), u * u, v * v);
  }

  lemma SquaredForm(a: nat, b: nat, p: nat, q: nat, u: real, v: real)
    requires p > 0 && q > 0 && a as real == u * p as real && b as real == v * q as real
    ensures a * q + b * p <= p * q <==> u + v <= 1.0
  {
    Three(u, p as real, q as real, a, q);
    Three(v, q as real, p as real, b, p);
    var m := p as real * q as real;
    assert (p * q) as real == m;
    Scales(u, v, m);
  }

  lemma Three(r: real, p: real, q: real, a: nat, b: nat)
    requires a as real == r * p && b as real == q
    ensures (a * b) as real == r * (p * q) && (a * b) as real == r * (q * p)
  {
    assert (a * b) as real == (a as real) * (b as real);
  }

  lemma Scales(a: real, b: real, m: real)
    requires m > 0.0
    ensures a * m + b * m <= m <==> a + b <= 1.0
  {
    assert a * m + b * m == (a + b) * m;
  }

  lemma SquaredRatio(d: int, r: nat, u: real)
    requires r > 0 && u * r as real == d as real
    ensures Sq(r) > 0
    ensures Sq(d) as real == (u * u) * Sq(r) as real
  {
    assert Sq(d) as real == (d as real) * (d as real) && Sq(r) as real == (r as real) * (r as real);
    assert (u * r as real) * (u * r as real) == (u * u) * ((r as real) * (r as real));
  }

  /**
   The mask is the ellipse that fills what the inset leaves of the region, around its middle: a pixel at or
   after the corner is accepted exactly when the squares of its two scaled coordinates add up to at most one.
  */
  lemma {:induction false} MaskIsEllipse(inset: nat, roi: Roi, x: nat, y: nat)
    requires Inset(inset, roi) * 2 < roi.w && Inset(inset, roi) * 2 < roi.h && x >= roi.x && y >= roi.y
    ensures var e := Inset(inset, roi);
      var (u, v) := (Scaled(roi.x, roi.w, e, x), Scaled(roi.y, roi.h, e, y));
      Accepts(inset, roi, x, y) <==> u * u + v * v <= 1.0
  {
    hide Scaled;
    hide InEllipse;
    var e, u, v := Inset(inset, roi), Scaled(roi.x, roi.w, Inset(inset, roi), x), Scaled(roi.y, roi.h, Inset(inset, roi), y);
    ScaledIsRatio(roi.x, roi.w, e, x);
    ScaledIsRatio(roi.y, roi.h, e, y);
    RatioForm(Dx2(roi, x), Dy2(roi, y), InnerWidth(inset, roi), InnerHeight(inset, roi), u, v);
  }

  // ---- overflow ----

  /** Both sides of the comparison fit in 64 bits. */
  predicate SidesFit(dx2: int, dy2: int, rx: nat, ry: nat) {
    && Sq(dx2) * Sq(ry) + Sq(dy2) * Sq(rx) <= I64_MAX
    && Sq(rx) * Sq(ry) <= I64_MAX
  }

  lemma Grows(a: nat, b: nat)
    requires b > 0
    ensures a <= a * b
  {
  }

  /** Evaluating a * b * b from the left overflows exactly when the product does. */
  lemma ChainIsExact(d: int, r: nat)
    requires r > 0
    ensures Times(Times(Times(Checked(d), d), r), r) == Checked(Sq(d) * Sq(r))
  {
    var a := Sq(d);
    Grows(a, r);
    Grows(a * r, r);
    assert a * r * r == a * Sq(r) by {
      Reassociate(a, r);
    }
    if d != 0 {
      if d > 0 {
        Grows(d, d);
      } else {
        Grows(-d, -d);
      }
    }
  }

  lemma Reassociate(a: int, r: int)
    ensures a * r * r == a * (r * r)
  {
  }

  /** The comparison fails exactly when a side overflows, and is otherwise the exact one. */
  lemma CompareIsExact(dx2: int, dy2: int, rx: nat, ry: nat)
    requires rx > 0 && ry > 0
    ensures Compare(dx2, dy2, rx, ry) ==
      if SidesFit(dx2, dy2, rx, ry) then Some(InEllipse(dx2, dy2, rx, ry)) else None
  {
    hide Times;
    hide Sq;
    ChainIsExact(dx2, ry);
    ChainIsExact(dy2, rx);
    ChainIsExact(rx, ry);
    var a, b := Sq(dx2) * Sq(ry), Sq(dy2) * Sq(rx);
    assert a >= 0 && b >= 0 by {
      NonNegative(Sq(dx2), Sq(ry));
      NonNegative(Sq(dy2), Sq(rx));
    }
    assert Sq(rx) * Sq(ry) >= 0 by {
      NonNegative(Sq(rx), Sq(ry));
    }
  }

  lemma NonNegative(a: nat, b: nat)
    ensures a * b >= 0
  {
  }

  lemma Monotone(a: nat, b: nat, c: nat, d: nat)
    requires a <= b && c <= d
    ensures a * c <= b * d
  {
    assert a * c <= b * c;
    assert b * c <= b * d;
  }

  lemma SquareMonotone(a: int, b: nat)
    requires 0 <= a + b && a <= b
    ensures Sq(a) <= Sq(b)
  {
    if a >= 0 {
      Monotone(a, b, a, b);
    } else {
      Monotone(-a, b, -a, b);
    }
  }

  lemma SquareOfProduct(a: int, b: int)
    ensures Sq(a) * Sq(b) == Sq(a * b)
  {
    calc {
      a * a * (b * b);
      a * (a * (b * b));
      a * (b * (a * b));
      a * b * (a * b);
    }
  }

  /** No side overflows for a pixel of a region of fewer than 2^31 pixels. */
  lemma SmallRegionsFit(dx2: int, dy2: int, rx: nat, ry: nat, w: nat, h: nat)
    requires 0 <= dx2 + w && dx2 <= w && 0 <= dy2 + h && dy2 <= h && rx <= w && ry <= h
    requires w * h < 0x8000_0000
    ensures SidesFit(dx2, dy2, rx, ry)
  {
    hide Sq;
    SquareMonotone(dx2, w);
    SquareMonotone(dy2, h);
    SquareMonotone(rx, w);
    SquareMonotone(ry, h);
    Monotone(Sq(dx2), Sq(w), Sq(ry), Sq(h));
    Monotone(Sq(dy2), Sq(h), Sq(rx), Sq(w));
    Monotone(Sq(rx), Sq(w), Sq(ry), Sq(h));
    SquareOfProduct(w, h);
    SquareMonotone(w * h, 0x7fff_ffff);
    assert Sq(0x7fff_ffff) == 0x3fff_ffff_0000_0001 by {
      SquareOfLimit();
    }
    assert Sq(h) * Sq(w) == Sq(w) * Sq(h);
  }

  lemma SquareOfLimit()
    ensures Sq(0x7fff_ffff) == 0x3fff_ffff_0000_0001
  {
  }

  /**
   The mask never overflows on a pixel of a region with fewer than 2^31 pixels, and then it is the
   exact ellipse test.
  */
  lemma MaskIsExact(inset: nat, roi: Roi, x: U32, y: U32)
    requires roi.w * roi.h < 0x8000_0000 && x < roi.x + roi.w && y < roi.y + roi.h
    ensures PixelInCircularMask(Some(inset), roi, x, y) == Some(Accepts(inset, roi, x, y))
  {
    hide Compare;
    hide InEllipse;
    hide SidesFit;
    var rx, ry := InnerWidth(inset, roi), InnerHeight(inset, roi);
    if rx > 0 && ry > 0 {
      CompareIsExact(Dx2(roi, x), Dy2(roi, y), rx, ry);
      SmallRegionsFit(Dx2(roi, x), Dy2(roi, y), rx, ry, roi.w, roi.h);
    }
  }

  /**
   Exactly when a pixel overflows, whatever the region: the inset leaves an interior and one of the
   two sides of the comparison exceeds 64 bits.
  */
  lemma OverflowIff(inset: nat, roi: Roi, x: U32, y: U32)
    ensures var rx, ry := InnerWidth(inset, roi), InnerHeight(inset, roi);
      PixelInCircularMask(Some(inset), roi, x, y).None? <==>
      rx > 0 && ry > 0 && !SidesFit(Dx2(roi, x), Dy2(roi, y), rx, ry)
  {
    hide Compare;
    hide SidesFit;
    var rx, ry := InnerWidth(inset, roi), InnerHeight(inset, roi);
    if rx > 0 && ry > 0 {
      CompareIsExact(Dx2(roi, x), Dy2(roi, y), rx, ry);
    }
  }

  /** No pixel of a region has larger sides than its first one. */
  lemma FirstPixelIsWorst(roi: Roi, x: U32, y: U32, rx: nat, ry: nat)
    requires roi.x <= x < roi.x + roi.w && roi.y <= y < roi.y + roi.h
    requires SidesFit(roi.w - 1, roi.h - 1, rx, ry)
    ensures SidesFit(Dx2(roi, x), Dy2(roi, y), rx, ry)
  {
    hide Sq;
    SquareMonotone(Dx2(roi, x), roi.w - 1);
    SquareMonotone(Dy2(roi, y), roi.h - 1);
    Monotone(Sq(Dx2(roi, x)), Sq(roi.w - 1), Sq(ry), Sq(ry));
    Monotone(Sq(Dy2(roi, y)), Sq(roi.h - 1), Sq(rx), Sq(rx));
  }

  ghost predicate OverflowsAt(inset: nat, roi: Roi, x: U32, y: U32) {
    && roi.x <= x < roi.x + roi.w && roi.y <= y < roi.y + roi.h
    && PixelInCircularMask(Some(inset), roi, x, y).None?
  }

  /**
   Some pixel of a region overflows if and only if the inset leaves an interior and the doubled
   distances of its corner do not fit: a condition on the region and the inset alone.
  */
  lemma RegionOverflowIff(inset: nat, roi: Roi)
    ensures var rx, ry := InnerWidth(inset, roi), InnerHeight(inset, roi);
      (exists x: U32, y: U32 :: OverflowsAt(inset, roi, x, y)) <==>
      rx > 0 && ry > 0 && !SidesFit(roi.w - 1, roi.h - 1, rx, ry)
  {
    hide PixelInCircularMask;
    hide SidesFit;
    var rx, ry := InnerWidth(inset, roi), InnerHeight(inset, roi);
    if x: U32, y: U32 :| OverflowsAt(inset, roi, x, y) {
      OverflowIff(inset, roi, x, y);
      if SidesFit(roi.w - 1, roi.h - 1, rx, ry) {
        FirstPixelIsWorst(roi, x, y, rx, ry);
      }
    }
    if rx > 0 && ry > 0 && !SidesFit(roi.w - 1, roi.h - 1, rx, ry) {
      OverflowIff(inset, roi, roi.x, roi.y);
      CornerSides(roi, rx, ry);
      assert OverflowsAt(inset, roi, roi.x, roi.y);
    }
  }

  lemma CornerSides(roi: Roi, rx: nat, ry: nat)
    ensures SidesFit(Dx2(roi, roi.x), Dy2(roi, roi.y), rx, ry) == SidesFit(roi.w - 1, roi.h - 1, rx, ry)
  {
    hide Sq;
    SquareOfNegation(roi.w - 1);
    SquareOfNegation(roi.h - 1);
  }

  /** A region of 65536 by 65536 pixels overflows on its own first pixel. */
  lemma LargeRegionOverflows()
    ensures PixelInCircularMask(Some(0), Roi(0, 0, 0x1_0000, 0x1_0000), 0, 0).None?
  {
    var roi := Roi(0, 0, 0x1_0000, 0x1_0000);
    assert InnerWidth(0, roi) == 0x1_0000 && InnerHeight(0, roi) == 0x1_0000;
    assert Sq(0x1_0000) * Sq(0x1_0000) == 0x1_0000_0000_0000_0000;
    OverflowIff(0, roi, 0, 0);
  }

  // ---- symmetry ----

  /** Reflecting a pixel in the vertical or horizontal middle line keeps it in or out of the ellipse. */
  lemma EllipseReflects(inset: nat, roi: Roi, x: nat, y: nat)
    requires roi.x <= x < roi.x + roi.w && roi.y <= y < roi.y + roi.h
    ensures Accepts(inset, roi, 2 * roi.x + roi.w - 1 - x, y) == Accepts(inset, roi, x, y)
    ensures Accepts(inset, roi, x, 2 * roi.y + roi.h - 1 - y) == Accepts(inset, roi, x, y)
  {
    hide Sq;
    SquareOfNegation(Dx2(roi, x));
    SquareOfNegation(Dy2(roi, y));
    assert Dx2(roi, 2 * roi.x + roi.w - 1 - x) == -Dx2(roi, x);
    assert Dy2(roi, 2 * roi.y + roi.h - 1 - y) == -Dy2(roi, y);
  }

  lemma SquareOfNegation(a: int)
    ensures Sq(-a) == Sq(a)
  {
  }

  // ---- monotone in the inset ----

  lemma CancelFactor(k: nat, a: int, b: int)
    requires k > 0 && k * a <= k * b
    ensures a <= b
  {
    if a > b {
      StrictlyMonotone(k, b, a);
    }
  }

  lemma StrictlyMonotone(k: nat, a: int, b: int)
    requires k > 0 && a < b
    ensures k * a < k * b
  {
    Grows(b - a, k);
    assert k * (b - a) == k * b - k * a;
  }

  /** Scaling both squared axes up keeps a point inside: a/b1 + c/d1 <= a/b2 + c/d2. */
  lemma WiderEllipse(a: nat, c: nat, b1: nat, d1: nat, b2: nat, d2: nat)
    requires 0 < b2 <= b1 && 0 < d2 <= d1
    requires a * d2 + c * b2 <= b2 * d2
    ensures a * d1 + c * b1 <= b1 * d1
  {
    var k := b2 * d2;
    assert k > 0 by {
      Grows(b2, d2);
    }
    calc {
      k * (a * d1 + c * b1);
      { Rearranged(a, c, b1, d1, b2, d2); }
      a * d2 * (b2 * d1) + c * b2 * (b1 * d2);
    <= { Monotone(b2, b1, d1, d1); Monotone(b1, b1, d2, d1);
         Monotone(a * d2, a * d2, b2 * d1, b1 * d1); Monotone(c * b2, c * b2, b1 * d2, b1 * d1); }
      a * d2 * (b1 * d1) + c * b2 * (b1 * d1);
      { Factored(a * d2, c * b2, b1 * d1); }
      (a * d2 + c * b2) * (b1 * d1);
    <= { Monotone(a * d2 + c * b2, k, b1 * d1, b1 * d1); }
      k * (b1 * d1);
    }
    CancelFactor(k, a * d1 + c * b1, b1 * d1);
  }

  lemma Factored(p: int, q: int, m: int)
    ensures p * m + q * m == (p + q) * m
  {
  }

  lemma Rearranged(a: int, c: int, b1: int, d1: int, b2: int, d2: int)
    ensures b2 * d2 * (a * d1 + c * b1) == a * d2 * (b2 * d1) + c * b2 * (b1 * d2)
  {
    Factored(a * d1, c * b1, b2 * d2);
    Exchange(b2, d2, a, d1);
    Exchange(b2, d2, c, b1);
  }

  lemma Exchange(p: int, q: int, a: int, d: int)
    ensures a * d * (p * q) == a * q * (p * d)
    ensures a * d * (p * q) == a * p * (d * q)
  {
    calc {
      a * d * (p * q);
      a * (d * (p * q));
      { assert d * (p * q) == q * (p * d); }
      a * (q * (p * d));
      a * q * (p * d);
    }
    calc {
      a * d * (p * q);
      a * (d * (p * q));
      { assert d * (p * q) == p * (d * q); }
      a * (p * (d * q));
      a * p * (d * q);
    }
  }

  /** The ellipse of a larger inset lies in that of a smaller one. */
  lemma EllipseShrinks(small: nat, large: nat, roi: Roi, x: nat, y: nat)
    requires small <= large
    ensures Accepts(large, roi, x, y) ==> Accepts(small, roi, x, y)
  {
    hide Sq;
    if Accepts(large, roi, x, y) {
      var w1, h1 := InnerWidth(small, roi), InnerHeight(small, roi);
      var w2, h2 := InnerWidth(large, roi), InnerHeight(large, roi);
      assert 0 < w2 <= w1 && 0 < h2 <= h1;
      SquareMonotone(w2, w1);
      SquareMonotone(h2, h1);
      WiderEllipse(Sq(Dx2(roi, x)), Sq(Dy2(roi, y)), Sq(w1), Sq(h1), Sq(w2), Sq(h2));
    }
  }

  // ---- inside the rectangle ----

  lemma InsideAxis(a: int, c: int, rx: nat, ry: nat)
    requires rx > 0 && ry > 0 && InEllipse(a, c, rx, ry)
    ensures 0 <= a + rx && a <= rx
  {
    hide Sq;
    NonNegative(Sq(c), Sq(rx));
    CancelFactor(Sq(ry), Sq(a), Sq(rx));
    RootMonotone(a, rx);
  }

  lemma RootMonotone(a: int, r: nat)
    requires Sq(a) <= Sq(r)
    ensures 0 <= a + r && a <= r
  {
    var m: nat := if a < 0 then -a else a;
    if m > r {
      LargerSquare(r, m);
    }
  }

  lemma LargerSquare(r: nat, m: nat)
    requires r < m
    ensures r * r < m * m
  {
    Monotone(r + 1, m, r + 1, m);
    assert (r + 1) * (r + 1) == r * r + 2 * r + 1;
  }

  /** The ellipse lies in the rectangle that the inset leaves. */
  lemma EllipseInside(inset: nat, roi: Roi, x: nat, y: nat)
    ensures Accepts(inset, roi, x, y) ==>
      && Inset(inset, roi) <= SatSub(x, roi.x) < roi.w - Inset(inset, roi)
      && Inset(inset, roi) <= SatSub(y, roi.y) < roi.h - Inset(inset, roi)
  {
    hide InEllipse;
    if Accepts(inset, roi, x, y) {
      var rx, ry := InnerWidth(inset, roi), InnerHeight(inset, roi);
      InsideAxis(Dx2(roi, x), Dy2(roi, y), rx, ry);
      Transposed(Dx2(roi, x), Dy2(roi, y), rx, ry);
      InsideAxis(Dy2(roi, y), Dx2(roi, x), ry, rx);
    }
  }

  lemma Transposed(a: int, c: int, rx: nat, ry: nat)
    ensures InEllipse(a, c, rx, ry) == InEllipse(c, a, ry, rx)
  {
    hide Sq;
    assert Sq(rx) * Sq(ry) == Sq(ry) * Sq(rx);
  }

  // ---- when the mask is empty ----

  lemma CentreInEllipse(a: int, c: int, rx: nat, ry: nat)
    requires rx > 0 && ry > 0
    requires a == 0 || (a == -1 && rx >= 2)
    requires c == 0 || (c == -1 && ry >= 2)
    ensures InEllipse(a, c, rx, ry)
  {
    hide Sq;
    assert 2 * Sq(a) <= Sq(rx) && 2 * Sq(c) <= Sq(ry) by {
      CentreAxis(a, rx);
      CentreAxis(c, ry);
    }
    Monotone(2 * Sq(a), Sq(rx), Sq(ry), Sq(ry));
    Monotone(2 * Sq(c), Sq(ry), Sq(rx), Sq(rx));
    Doubled(Sq(a), Sq(ry));
    Doubled(Sq(c), Sq(rx));
    assert Sq(ry) * Sq(rx) == Sq(rx) * Sq(ry);
  }

  lemma Doubled(a: int, b: int)
    ensures 2 * a * b == 2 * (a * b)
  {
  }

  lemma CentreAxis(a: int, r: nat)
    requires a == 0 || (a == -1 && r >= 2)
    ensures 2 * Sq(a) <= Sq(r)
  {
    if a == -1 {
      Monotone(2, r, 2, r);
    }
  }

  // ---- the 64-bit answer ----

  /** Whenever the comparison gives an answer, it is that of the exact ellipse. */
  lemma {:induction false} AnswerIsExact(inset: nat, roi: Roi, x: U32, y: U32)
    ensures PixelInCircularMask(Some(inset), roi, x, y).Some? ==>
      PixelInCircularMask(Some(inset), roi, x, y) == Some(Accepts(inset, roi, x, y))
  {
    hide Compare;
    hide InEllipse;
    hide SidesFit;
    var rx, ry := InnerWidth(inset, roi), InnerHeight(inset, roi);
    if rx > 0 && ry > 0 {
      CompareIsExact(Dx2(roi, x), Dy2(roi, y), rx, ry);
    }
  }

  /** `m` is the mirror image of `x` in the middle of a side that starts at `start` and has length `length`. */
  predicate Mirrored(start: nat, length: nat, x: nat, m: nat) {
    start <= x && start <= m && x + m == 2 * start + length - 1
  }

  lemma SidesReflect(dx2: int, dy2: int, rx: nat, ry: nat)
    ensures Compare(-dx2, dy2, rx, ry) == Compare(dx2, dy2, rx, ry)
    ensures Compare(dx2, -dy2, rx, ry) == Compare(dx2, dy2, rx, ry)
  {
    hide Times;
    ProductReflects(dx2);
    ProductReflects(dy2);
  }

  lemma ProductReflects(d: int)
    ensures Times(Checked(-d), -d) == Times(Checked(d), d)
  {
    assert -d * -d == d * d;
    if d == I64_MIN || -d == I64_MIN {
      assert d * d > I64_MAX;
    }
    SquareAtLeast(d);
  }

  lemma SquareAtLeast(d: int)
    ensures d > I64_MAX || d < I64_MIN ==> d * d > I64_MAX
  {
    if d > I64_MAX {
      Monotone(d, d, 1, d);
    }
    if d < I64_MIN {
      Monotone(-d, -d, 1, -d);
    }
  }

  /** On every region, a pixel and its mirror image get the same answer, overflow included. */
  lemma {:induction false} ReflectionsAgree(mask: Option<nat>, roi: Roi, x: U32, y: U32, m: U32)
    ensures Mirrored(roi.x, roi.w, x, m) ==>
      PixelInCircularMask(mask, roi, m, y) == PixelInCircularMask(mask, roi, x, y)
    ensures Mirrored(roi.y, roi.h, y, m) ==>
      PixelInCircularMask(mask, roi, x, m) == PixelInCircularMask(mask, roi, x, y)
  {
    hide Compare;
    if mask.Some? {
      var rx, ry := InnerWidth(mask.value, roi), InnerHeight(mask.value, roi);
      SidesReflect(Dx2(roi, x), Dy2(roi, y), rx, ry);
      assert Mirrored(roi.x, roi.w, x, m) ==> Dx2(roi, m) == -Dx2(roi, x);
      assert Mirrored(roi.y, roi.h, y, m) ==> Dy2(roi, m) == -Dy2(roi, y);
    }
  }

  /**
   On every region, a pixel accepted at the larger inset is accepted at the smaller one exactly when
   the sides of that comparison fit; it is never rejected there.
  */
  lemma {:induction false} ShrinksWithInset(small: nat, large: nat, roi: Roi, x: U32, y: U32)
    requires small <= large
    ensures PixelInCircularMask(Some(large), roi, x, y) == Some(true) ==>
      PixelInCircularMask(Some(small), roi, x, y) ==
        if SidesFit(Dx2(roi, x), Dy2(roi, y), InnerWidth(small, roi), InnerHeight(small, roi)) then Some(true) else None
  {
    hide PixelInCircularMask;
    hide SidesFit;
    AnswerIsExact(large, roi, x, y);
    if PixelInCircularMask(Some(large), roi, x, y) == Some(true) {
      EllipseShrinks(small, large, roi, x, y);
      AnswerIsExact(small, roi, x, y);
      OverflowIff(small, roi, x, y);
    }
  }

  /** On a region of fewer than 2^31 pixels, a larger inset accepts no pixel that a smaller one does not. */
  lemma {:induction false} ShrinksOnSmallRegions(small: nat, large: nat, roi: Roi, x: U32, y: U32)
    requires small <= large
    requires roi.w * roi.h < 0x8000_0000 && x < roi.x + roi.w && y < roi.y + roi.h
    ensures PixelInCircularMask(Some(large), roi, x, y) == Some(true) ==>
      PixelInCircularMask(Some(small), roi, x, y) == Some(true)
  {
    hide PixelInCircularMask;
    hide Accepts;
    MaskIsExact(large, roi, x, y);
    MaskIsExact(small, roi, x, y);
    EllipseShrinks(small, large, roi, x, y);
  }

  /** On a large region the smaller inset may overflow where the larger one accepts. */
  lemma ShrinkingOverflows()
    ensures var roi := Roi(0, 0, 0x1_0000, 0x1_0000);
      && PixelInCircularMask(Some(20000), roi, 32768, 32768) == Some(true)
      && PixelInCircularMask(Some(0), roi, 32768, 32768).None?
  {
    var roi := Roi(0, 0, 0x1_0000, 0x1_0000);
    assert InnerWidth(0, roi) == 0x1_0000 && InnerHeight(0, roi) == 0x1_0000;
    assert Sq(0x1_0000) * Sq(0x1_0000) == 0x1_0000_0000_0000_0000;
    OverflowIff(0, roi, 32768, 32768);
    assert InnerWidth(20000, roi) == 25536 && InnerHeight(20000, roi) == 25536;
    assert Dx2(roi, 32768) == 1 && Dy2(roi, 32768) == 1;
    CompareIsExact(1, 1, 25536, 25536);
  }

  /** On every region, an accepted pixel lies in the rectangle that the inset leaves. */
  lemma {:induction false} InsideInsetRectangle(inset: nat, roi: Roi, x: U32, y: U32)
    ensures PixelInCircularMask(Some(inset), roi, x, y) == Some(true) ==>
      && Inset(inset, roi) <= SatSub(x, roi.x) < roi.w - Inset(inset, roi)
      && Inset(inset, roi) <= SatSub(y, roi.y) < roi.h - Inset(inset, roi)
  {
    hide PixelInCircularMask;
    hide Accepts;
    AnswerIsExact(inset, roi, x, y);
    EllipseInside(inset, roi, x, y);
  }

  /** A pixel left of or above the region is judged as the one on its edge, so an inset does not accept it. */
  lemma {:induction false} OutsideIsClamped(inset: nat, roi: Roi, x: U32, y: U32)
    requires x < roi.x || y < roi.y
    requires Inset(inset, roi) > 0
    ensures PixelInCircularMask(Some(inset), roi, x, y) != Some(true)
  {
    hide PixelInCircularMask;
    InsideInsetRectangle(inset, roi, x, y);
  }

  ghost predicate AcceptedAt(inset: nat, roi: Roi, x: U32, y: U32) {
    && roi.x <= x < roi.x + roi.w && roi.y <= y < roi.y + roi.h
    && PixelInCircularMask(Some(inset), roi, x, y) == Some(true)
  }

  lemma CentreAccepted(inset: nat, roi: Roi, x: U32, y: U32)
    requires InnerWidth(inset, roi) > 0 && InnerHeight(inset, roi) > 0
    requires Sq(InnerWidth(inset, roi)) * Sq(InnerHeight(inset, roi)) <= I64_MAX
    requires x == roi.x + (roi.w - 1) / 2 && y == roi.y + (roi.h - 1) / 2
    ensures AcceptedAt(inset, roi, x, y)
  {
    hide Compare;
    hide Sq;
    var rx, ry := InnerWidth(inset, roi), InnerHeight(inset, roi);
    CentreInEllipse(Dx2(roi, x), Dy2(roi, y), rx, ry);
    CompareIsExact(Dx2(roi, x), Dy2(roi, y), rx, ry);
  }

  /**
   A region all of whose pixels are 32-bit has an accepted pixel if and only if the inset leaves
   something of both sides and the squared product of what it leaves fits in 64 bits.
  */
  lemma {:induction false} NonEmptyIff(inset: nat, roi: Roi)
    requires roi.x + roi.w <= 0x1_0000_0000 && roi.y + roi.h <= 0x1_0000_0000
    ensures (exists x: U32, y: U32 :: AcceptedAt(inset, roi, x, y)) <==>
      && 2 * Inset(inset, roi) < roi.w && 2 * Inset(inset, roi) < roi.h
      && Sq(InnerWidth(inset, roi)) * Sq(InnerHeight(inset, roi)) <= I64_MAX
  {
    hide Sq;
    hide Compare;
    var rx, ry := InnerWidth(inset, roi), InnerHeight(inset, roi);
    if x: U32, y: U32 :| AcceptedAt(inset, roi, x, y) {
      CompareIsExact(Dx2(roi, x), Dy2(roi, y), rx, ry);
    }
    if rx > 0 && ry > 0 && Sq(rx) * Sq(ry) <= I64_MAX {
      CentreAccepted(inset, roi, roi.x + (roi.w - 1) / 2, roi.y + (roi.h - 1) / 2);
    }
  }

  /** A region of fewer than 2^31 pixels has an accepted pixel exactly when the inset leaves both sides. */
  lemma {:induction false} NonEmptyOnSmallRegions(inset: nat, roi: Roi)
    requires roi.w * roi.h < 0x8000_0000
    requires roi.x + roi.w <= 0x1_0000_0000 && roi.y + roi.h <= 0x1_0000_0000
    ensures (exists x: U32, y: U32 :: AcceptedAt(inset, roi, x, y)) <==>
      2 * Inset(inset, roi) < roi.w && 2 * Inset(inset, roi) < roi.h
  {
    hide Sq;
    hide AcceptedAt;
    NonEmptyIff(inset, roi);
    SmallRegionsFit(0, 0, InnerWidth(inset, roi), InnerHeight(inset, roi), roi.w, roi.h);
  }
}
