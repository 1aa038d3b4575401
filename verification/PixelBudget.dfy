/**
 The pixel budget of scanned PDF pages: square-root scaling to a page budget, and which pages keep within it.
 */
module PixelBudget {
  import opened Common

  const PAGE_PIXELS := 12_000_000
  const TOTAL_PIXELS := 48_000_000

  // ---------------------------------------------------------------------------------------------------------
  // The size of a rendered page. Sides are those of the viewport at the full render scale.

  function RequestedPixels(width: real, height: real): int {
    Ceil(width) * Ceil(height)
  }

  function PageBudget(used: int): int {
    Min(PAGE_PIXELS, TOTAL_PIXELS - used)
  }

  function Side(x: real): int {
    Max(1, x.Floor)
  }

  /** `root(b, r)` is the square root of `b / r`. */
  ghost predicate IsRoot(root: (int, int) -> real) {
    forall b, r :: 0 < b < r ==> root(b, r) > 0.0 && root(b, r) * root(b, r) * r as real == b as real
  }

  /** By how much a page is scaled down to meet its budget. */
  function ScaleDown(requested: int, budget: int, root: (int, int) -> real): real {
    if requested > budget then root(budget, requested) else 1.0
  }

  function PixelsAt(width: real, height: real, scale: real): int {
    Side(width * scale) * Side(height * scale)
  }

  function PagePixels(width: real, height: real, budget: int, root: (int, int) -> real): int {
    PixelsAt(width, height, ScaleDown(RequestedPixels(width, height), budget, root))
  }

  function LongSide(width: real, height: real): real {
    if width <= 0.0 && height <= 0.0 then 0.0 else if width < height then height else width
  }

  predicate SideFits(long: real, requested: int, budget: int, limit: int) {
    long * long * budget as real < ((limit + 1) * (limit + 1) * requested) as real
  }

  /**
   The longer side of a page scaled for `budget` is short enough for `limit`, in terms a caller can check without the
   square root.
   */
  predicate LongSideFits(width: real, height: real, budget: int, limit: int) {
    SideFits(LongSide(width, height), RequestedPixels(width, height), budget, limit)
  }

  lemma CeilBounds(x: real)
    ensures x <= Ceil(x) as real < x + 1.0
  {
  }

  lemma Products(a: real, b: real, c: real, d: real)
    requires 0.0 <= a <= b && 0.0 <= c <= d
    ensures a * c <= b * d
  {
    assert a * c <= b * c;
    assert b * c <= b * d;
  }

  /** Two sides whose product meets the limit give pixels within it exactly when neither is longer than it. */
  lemma RoundedSidesFit(x: real, y: real, limit: int)
    requires x > 0.0 && y > 0.0 && limit > 0 && x * y <= limit as real
    ensures Side(x) * Side(y) <= limit <==> x < (limit + 1) as real && y < (limit + 1) as real
  {
    if x >= 1.0 && y >= 1.0 {
      Products(x.Floor as real, x, y.Floor as real, y);
      Products(1.0, x, y, y);
      Products(x, x, 1.0, y);
      assert (x.Floor * y.Floor) as real == x.Floor as real * y.Floor as real;
    } else if x < 1.0 {
      assert Side(x) == 1;
    } else {
      assert Side(y) == 1;
    }
  }

  lemma PositiveSides(width: real, height: real)
    requires RequestedPixels(width, height) > 0
    ensures (width > 0.0 && height > 0.0) || (width < 0.0 && height < 0.0)
  {
    var a, b := Ceil(width), Ceil(height);
    assert a <= 0 <= b ==> a * b <= 0;
    assert b <= 0 <= a ==> a * b <= 0;
    CeilBounds(width);
    CeilBounds(height);
  }

  lemma AreaRequested(width: real, height: real)
    requires width > 0.0 && height > 0.0
    ensures width * height <= RequestedPixels(width, height) as real
    ensures LongSide(width, height) <= RequestedPixels(width, height) as real
  {
    var a, b := Ceil(width), Ceil(height);
    CeilBounds(width);
    CeilBounds(height);
    Products(width, a as real, height, b as real);
    assert (a * b) as real == a as real * b as real;
    Products(1.0, a as real, b as real, b as real);
    Products(a as real, a as real, 1.0, b as real);
  }

  lemma PositiveProduct(a: real, b: real)
    requires a > 0.0 && b > 0.0
    ensures a * b > 0.0
  {
  }

  lemma SmallerProduct(a: real, b: real, k: real)
    requires a < b && k > 0.0
    ensures a * k < b * k
  {
    PositiveProduct(b - a, k);
    assert (b - a) * k == b * k - a * k;
  }

  lemma SmallerSquare(a: real, b: real)
    requires 0.0 <= a < b
    ensures a * a < b * b
  {
    PositiveProduct(b - a, b + a);
    assert (b - a) * (b + a) == b * b - a * a;
  }

  lemma Squares(a: real, b: real)
    requires a >= 0.0 && b >= 0.0
    ensures a < b <==> a * a < b * b
  {
    if a < b {
      SmallerSquare(a, b);
    } else {
      Products(b, a, b, a);
    }
  }

  lemma ScaleBoth(a: real, b: real, k: real)
    requires k > 0.0
    ensures a < b <==> a * k < b * k
  {
    if a < b {
      SmallerProduct(a, b, k);
    } else {
      Products(0.0, a - b, k, k);
      assert (a - b) * k == a * k - b * k;
    }
  }

  /** What the loop's scale amounts to, without naming the square root. */
  predicate ScaleMeets(scale: real, requested: int, budget: int) {
    scale > 0.0 && if requested > budget then scale * scale * requested as real == budget as real else scale == 1.0
  }

  lemma ScaledAreaFits(width: real, height: real, scale: real, requested: int, budget: int)
    requires width > 0.0 && height > 0.0 && ScaleMeets(scale, requested, budget)
    requires 0 < budget && 0 < requested && width * height <= requested as real
    ensures width * scale > 0.0 && height * scale > 0.0
    ensures width * scale * (height * scale) <= budget as real
  {
    PositiveProduct(width, scale);
    PositiveProduct(height, scale);
    assert width * scale * (height * scale) == width * height * (scale * scale);
    if requested > budget {
      PositiveProduct(scale, scale);
      PositiveProduct(width, height);
      Products(width * height, requested as real, scale * scale, scale * scale);
      assert requested as real * (scale * scale) == scale * scale * requested as real;
    }
  }

  /** The scaled long side against the limit, squared and with the root gone. */
  lemma LongSideScaled(long: real, scale: real, requested: int, budget: int, limit: int)
    requires long > 0.0 && 0 < budget < requested && budget <= limit && ScaleMeets(scale, requested, budget)
    ensures long * scale < (limit + 1) as real <==> SideFits(long, requested, budget, limit)
  {
    var b, r, c := budget as real, requested as real, (limit + 1) as real;
    PositiveProduct(long, scale);
    Squares(long * scale, c);
    assert (long * scale) * (long * scale) == long * long * (scale * scale);
    assert (long * long * (scale * scale)) * r == long * long * (scale * scale * r) == long * long * b;
    assert ((limit + 1) * (limit + 1) * requested) as real == c * c * r;
    ScaleBoth(long * long * (scale * scale), c * c, r);
  }

  lemma CubesOrdered(a: real, b: real, c: real, r: real)
    requires 0.0 < a <= r <= b < c
    ensures a * a * b < c * c * r
  {
    Products(a, b, a, r);
    Products(a * a, b * r, b, b);
    Squares(b, c);
    ScaleBoth(b * b, c * c, r);
    assert (b * r) * b == b * b * r;
  }

  lemma LongSideUnscaled(long: real, requested: int, budget: int, limit: int)
    requires 0.0 < long <= requested as real && 0 < requested <= budget <= limit
    ensures long < (limit + 1) as real
    ensures SideFits(long, requested, budget, limit)
  {
    var b, r, c := budget as real, requested as real, (limit + 1) as real;
    CubesOrdered(long, b, c, r);
    assert ((limit + 1) * (limit + 1) * requested) as real == c * c * r;
  }

  lemma LongSideBounds(width: real, height: real, scale: real, bound: real)
    requires width > 0.0 && height > 0.0 && scale > 0.0
    ensures (width * scale < bound && height * scale < bound) <==> LongSide(width, height) * scale < bound
  {
    if width < height {
      Products(width, height, scale, scale);
    } else {
      Products(height, width, scale, scale);
    }
  }

  lemma PixelsByLongSide(width: real, height: real, scale: real, requested: int, budget: int, limit: int)
    requires width > 0.0 && height > 0.0 && ScaleMeets(scale, requested, budget)
    requires 0 < budget <= limit && 0 < requested && width * height <= requested as real
    ensures PixelsAt(width, height, scale) <= limit <==> LongSide(width, height) * scale < (limit + 1) as real
  {
    ScaledAreaFits(width, height, scale, requested, budget);
    RoundedSidesFit(width * scale, height * scale, limit);
    LongSideBounds(width, height, scale, (limit + 1) as real);
  }

  lemma LongSideMeets(long: real, scale: real, requested: int, budget: int, limit: int)
    requires 0.0 < long <= requested as real && ScaleMeets(scale, requested, budget) && 0 < budget <= limit
    ensures long * scale < (limit + 1) as real <==> SideFits(long, requested, budget, limit)
  {
    if requested > budget {
      LongSideScaled(long, scale, requested, budget, limit);
    } else {
      LongSideUnscaled(long, requested, budget, limit);
      assert long * scale == long;
    }
  }

  lemma PixelsMeet(width: real, height: real, scale: real, requested: int, budget: int, limit: int)
    requires width > 0.0 && height > 0.0 && ScaleMeets(scale, requested, budget)
    requires 0 < budget <= limit && 0 < requested && width * height <= requested as real
    requires LongSide(width, height) <= requested as real
    ensures PixelsAt(width, height, scale) <= limit <==> SideFits(LongSide(width, height), requested, budget, limit)
  {
    hide PixelsAt, SideFits, ScaleMeets, Side;
    PixelsByLongSide(width, height, scale, requested, budget, limit);
    LongSideMeets(LongSide(width, height), scale, requested, budget, limit);
  }

  /**
   A page scaled for its budget keeps within any limit from that budget on exactly when its longer side fits, for every
   viewport the loop renders. The limit is the budget itself, or what is left for the whole document.
   */
  lemma PageFitsIffLongSideFits(width: real, height: real, budget: int, limit: int, root: (int, int) -> real)
    requires IsRoot(root) && 0 < budget <= limit && 0 < RequestedPixels(width, height)
    ensures PagePixels(width, height, budget, root) <= limit <==> LongSideFits(width, height, budget, limit)
  {
    PositiveSides(width, height);
    hide RequestedPixels, PixelsAt, SideFits, LongSide;
    if width > 0.0 {
      AreaRequested(width, height);
      var requested := RequestedPixels(width, height);
      PixelsMeet(width, height, ScaleDown(requested, budget, root), requested, budget, limit);
    } else {
      NegativeSides(width, height, budget, limit, root);
    }
  }

  lemma NegativeSides(width: real, height: real, budget: int, limit: int, root: (int, int) -> real)
    requires IsRoot(root) && 0 < budget <= limit
    requires width < 0.0 && height < 0.0 && 0 < RequestedPixels(width, height)
    ensures PagePixels(width, height, budget, root) <= limit && LongSideFits(width, height, budget, limit)
  {
    var requested := RequestedPixels(width, height);
    var scale := ScaleDown(requested, budget, root);
    assert scale >= 0.0;
    Products(0.0, -width, 0.0, scale);
    Products(0.0, -height, 0.0, scale);
    assert width * scale <= 0.0 && height * scale <= 0.0;
    assert (limit + 1) * (limit + 1) * requested > 0;
  }

  /**
   The size a page is drawn at: in full when that is within its budget, and otherwise with both sides scaled by the
   square root of the budget over its pixels; never less than one pixel a side.
   */
  lemma DrawnSize(width: real, height: real, budget: int, root: (int, int) -> real) returns (scale: real)
    requires IsRoot(root) && 0 < budget && 0 < RequestedPixels(width, height)
    ensures scale > 0.0
    ensures RequestedPixels(width, height) <= budget ==> scale == 1.0
    ensures RequestedPixels(width, height) > budget ==>
              scale * scale * RequestedPixels(width, height) as real == budget as real
    ensures PagePixels(width, height, budget, root) == Max(1, (width * scale).Floor) * Max(1, (height * scale).Floor)
  {
    hide RequestedPixels;
    var requested := RequestedPixels(width, height);
    scale := ScaleDown(requested, budget, root);
    assert ScaleMeets(scale, requested, budget);
    DrawnAt(width, height, scale);
  }

  lemma DrawnAt(width: real, height: real, scale: real)
    ensures PixelsAt(width, height, scale) == Max(1, (width * scale).Floor) * Max(1, (height * scale).Floor)
  {
  }

  /** Scaled sides of at least one pixel always keep within the budget. */
  lemma SidesOfAPixelFit(width: real, height: real, requested: int, budget: int, root: (int, int) -> real)
    requires IsRoot(root) && 0 < budget && 0 < requested && requested == RequestedPixels(width, height)
    requires width > 0.0 && height > 0.0
    requires width * ScaleDown(requested, budget, root) >= 1.0 && height * ScaleDown(requested, budget, root) >= 1.0
    ensures PagePixels(width, height, budget, root) <= budget
  {
    hide Side, RequestedPixels, Ceil;
    AreaRequested(width, height);
    SidesMeet(width, height, ScaleDown(requested, budget, root), requested, budget);
  }

  lemma SidesMeet(width: real, height: real, scale: real, requested: int, budget: int)
    requires ScaleMeets(scale, requested, budget) && 0 < budget && 0 < requested && width > 0.0 && height > 0.0
    requires width * height <= requested as real && width * scale >= 1.0 && height * scale >= 1.0
    ensures PixelsAt(width, height, scale) <= budget
  {
    ScaledAreaFits(width, height, scale, requested, budget);
    SidesWithinArea(width * scale, height * scale, budget);
  }

  lemma SidesWithinArea(x: real, y: real, budget: int)
    requires x >= 1.0 && y >= 1.0 && x * y <= budget as real
    ensures Side(x) * Side(y) <= budget
  {
    Products(x.Floor as real, x, y.Floor as real, y);
    assert (x.Floor * y.Floor) as real == x.Floor as real * y.Floor as real;
  }

  /** A strip a million times as long as wide takes double the whole document's budget: the rounding up to one pixel. */
  lemma ThinStripExceeds(root: (int, int) -> real)
    requires IsRoot(root)
    ensures PagePixels(768_000_000.0, 1.0, PageBudget(0), root) == 2 * TOTAL_PIXELS
  {
    assert Ceil(768_000_000.0) == 768_000_000 && Ceil(1.0) == 1;
    var r := root(12_000_000, 768_000_000);
    Squares(r, 0.125);
    Squares(0.125, r);
    assert Side(768_000_000.0 * r) == 96_000_000 && Side(1.0 * r) == 1;
  }

  /** A page whose longer side squared is less than four times its pixels. */
  predicate Stocky(width: real, height: real) {
    var long := LongSide(width, height);
    long * long < (4 * RequestedPixels(width, height)) as real
  }

  /** The pages that keep within every budget that may be left are the stocky ones. */
  lemma StockyFitsEveryBudget(width: real, height: real)
    requires 0 < RequestedPixels(width, height)
    ensures Stocky(width, height) <==> forall budget :: budget > 0 ==> LongSideFits(width, height, budget, budget)
  {
    if Stocky(width, height) {
      forall budget | budget > 0
        ensures LongSideFits(width, height, budget, budget)
      {
        StockyFits(width, height, budget, budget);
      }
    } else {
      assert !LongSideFits(width, height, 1, 1);
    }
  }

  lemma StockyFits(width: real, height: real, budget: int, limit: int)
    requires 0 < RequestedPixels(width, height) && 0 < budget <= limit && Stocky(width, height)
    ensures LongSideFits(width, height, budget, limit)
  {
    hide RequestedPixels, LongSide;
    FourTimes(LongSide(width, height), RequestedPixels(width, height), budget, limit);
  }

  lemma FourTimes(long: real, requested: int, budget: int, limit: int)
    requires 0 < requested && 0 < budget <= limit && long * long < (4 * requested) as real
    ensures SideFits(long, requested, budget, limit)
  {
    FourBudgets(requested, budget);
    LargerLimit(requested, budget + 1, limit + 1);
    ScaleBoth(long * long, (4 * requested) as real, budget as real);
    CastProduct(4 * requested, budget);
    CastOrder(4 * requested * budget, (limit + 1) * (limit + 1) * requested);
  }

  lemma CastProduct(a: int, b: int)
    ensures a as real * b as real == (a * b) as real
  {
  }

  lemma CastOrder(a: int, b: int)
    requires a <= b
    ensures a as real <= b as real
  {
  }

  lemma LargerLimit(requested: int, a: int, b: int)
    requires 0 < requested && 0 <= a <= b
    ensures a * a * requested <= b * b * requested
  {
    assert a * a <= a * b <= b * b;
    assert (b * b - a * a) * requested >= 0;
  }

  lemma FourBudgets(requested: int, budget: int)
    requires 0 < requested && 0 < budget
    ensures 4 * requested * budget <= (budget + 1) * (budget + 1) * requested
  {
    var square := (budget - 1) * (budget - 1);
    assert square >= 0;
    assert square * requested >= 0;
    assert (budget + 1) * (budget + 1) == square + 4 * budget;
    assert (square + 4 * budget) * requested == square * requested + 4 * budget * requested;
  }

  lemma PixelsPositive(width: real, height: real, budget: int, root: (int, int) -> real)
    ensures PagePixels(width, height, budget, root) > 0
  {
    var scale := ScaleDown(RequestedPixels(width, height), budget, root);
    var a, b := Side(width * scale), Side(height * scale);
    assert a >= 1 && b >= 1;
    assert a * b > 0;
  }
}
