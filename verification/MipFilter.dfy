/** The arithmetic of mip chains in src/objects/texture.c: level sizes, the box
    filter, and what repeated filtering does to one colour component. */
module MipFilter {
  import opened Arithmetic

  /** One component of an image, by column and row. */
  type Plane = (nat, nat) -> nat

  // ---------------------------------------------------------------- extents

  function Halve(d: nat): nat { if d > 1 then d / 2 else 1 }

  /** The size of a level along an axis of size `d`. */
  function DimAt(d: nat, level: nat): nat {
    if level == 0 then d else Halve(DimAt(d, level - 1))
  }

  /** How many base texels one texel of a level covers along an axis of size 2^i. */
  function Cover(i: nat, level: nat): nat { Pow2(if level <= i then level else i) }

  lemma {:induction false} DimIsPow2(i: nat, level: nat)
    ensures DimAt(Pow2(i), level) == Pow2(if level <= i then i - level else 0)
  {
    if level > 0 {
      DimIsPow2(i, level - 1);
    }
  }

  /** A level's texels cover the base axis exactly. */
  lemma {:induction false} CoverTimesDim(i: nat, level: nat)
    ensures Cover(i, level) * DimAt(Pow2(i), level) == Pow2(i)
  {
    DimIsPow2(i, level);
    if 0 < level <= i {
      CoverTimesDim(i, level - 1);
      DimIsPow2(i, level - 1);
      var c, d := Cover(i, level - 1), DimAt(Pow2(i), level);
      assert Cover(i, level) * d == 2 * c * d == c * (2 * d);
    }
  }

  // -------------------------------------------------------------- filtering

  /** The second of the two source positions along an axis. */
  function Second(i: nat, size: nat): nat {
    if 2 * i + 1 < size then 2 * i + 1 else 2 * i
  }

  function Box(a: nat, b: nat, c: nat, d: nat): nat { (a + b + c + d + 2) / 4 }

  /** The component at column `x` and row `y` of a level generated from a base of
      size `w` by `h`, each level from the one before it. */
  function Level(base: Plane, w: nat, h: nat, level: nat, x: nat, y: nat): nat {
    if level == 0 then base(x, y)
    else
      var x1, y1 := Second(x, DimAt(w, level - 1)), Second(y, DimAt(h, level - 1));
      Box(Level(base, w, h, level - 1, 2 * x, 2 * y), Level(base, w, h, level - 1, x1, 2 * y),
          Level(base, w, h, level - 1, 2 * x, y1), Level(base, w, h, level - 1, x1, y1))
  }

  function RowSum(base: Plane, x0: nat, y: nat, n: nat): nat {
    if n == 0 then 0 else RowSum(base, x0, y, n - 1) + base(x0 + (n - 1), y)
  }

  /** The sum over a block of `n` columns and `m` rows. */
  function BlockSum(base: Plane, x0: nat, y0: nat, n: nat, m: nat): nat {
    if m == 0 then 0 else BlockSum(base, x0, y0, n, m - 1) + RowSum(base, x0, y0 + (m - 1), n)
  }

  lemma {:induction false} RowSplits(base: Plane, x0: nat, y: nat, n: nat, n': nat)
    ensures RowSum(base, x0, y, n + n') == RowSum(base, x0, y, n) + RowSum(base, x0 + n, y, n')
  {
    if n' > 0 {
      RowSplits(base, x0, y, n, n' - 1);
    }
  }

  lemma {:induction false} BlockSplitsAcross(base: Plane, x0: nat, y0: nat, n: nat, n': nat, m: nat)
    ensures BlockSum(base, x0, y0, n + n', m) == BlockSum(base, x0, y0, n, m) + BlockSum(base, x0 + n, y0, n', m)
  {
    if m > 0 {
      BlockSplitsAcross(base, x0, y0, n, n', m - 1);
      RowSplits(base, x0, y0 + (m - 1), n, n');
    }
  }

  lemma {:induction false} BlockSplitsDown(base: Plane, x0: nat, y0: nat, n: nat, m: nat, m': nat)
    ensures BlockSum(base, x0, y0, n, m + m') == BlockSum(base, x0, y0, n, m) + BlockSum(base, x0, y0 + m, n, m')
  {
    if m' > 0 {
      BlockSplitsDown(base, x0, y0, n, m, m' - 1);
    }
  }

  // ------------------------------------------------------------- the bounds

  /** What a texel of a level covers. */
  function Covered(base: Plane, i: nat, j: nat, level: nat, x: nat, y: nat): nat {
    BlockSum(base, x * Cover(i, level), y * Cover(j, level), Cover(i, level), Cover(j, level))
  }

  function Area(i: nat, j: nat, level: nat): (r: nat)
    ensures 0 < r
  {
    MulMonotone(1, Cover(i, level), Cover(j, level));
    Cover(i, level) * Cover(j, level)
  }

  function At(base: Plane, i: nat, j: nat, level: nat, x: nat, y: nat): nat {
    Level(base, Pow2(i), Pow2(j), level, x, y)
  }

  predicate InLevel(i: nat, j: nat, level: nat, x: nat, y: nat) {
    x < DimAt(Pow2(i), level) && y < DimAt(Pow2(j), level)
  }

  /** `v`, times the number of texels, is within `k / 2` texels' worth of the sum. */
  predicate Near(v: nat, area: nat, sum: nat, k: nat) {
    -((k * area) as int) <= 2 * (v * area) - 2 * sum <= k * area
  }

  lemma BoxRounds(a: nat, b: nat, c: nat, d: nat)
    ensures -1 <= 4 * Box(a, b, c, d) - (a + b + c + d) <= 2
  {
  }

  /** `e` counts quarters, or halves, of rounding; `area` scales them. */
  lemma ScaledError(e: int, area: nat)
    requires -1 <= e <= 2
    ensures -(area as int) <= e * area <= 2 * area
    ensures 0 <= e <= 1 ==> 0 <= e * area <= area
  {
    if e == -1 || e == 0 || e == 1 {
      assert e == 1 ==> e * area == area;
    } else {
      assert e * area == 2 * area;
    }
  }

  lemma Regroup(v: nat, n: nat, area: nat)
    ensures v * (n * area) == (n * v) * area
  {
  }

  lemma DistributeError(e: int, t: nat, area: nat)
    requires 0 <= e + t
    ensures (e + t) * area == e * area + t * area
  {
  }

  lemma Times4(v: nat, e: int, a: nat, b: nat, c: nat, d: nat, area: nat)
    requires 4 * v == e + a + b + c + d && -1 <= e <= 2
    ensures v * (4 * area) == e * area + a * area + b * area + c * area + d * area
    ensures -(area as int) <= e * area <= 2 * area
  {
    Regroup(v, 4, area);
    DistributeError(e, a + b + c + d, area);
    Distribute(a + b + c, d, area);
    Distribute(a + b, c, area);
    Distribute(a, b, area);
    ScaledError(e, area);
  }

  lemma Times2(v: nat, e: int, a: nat, b: nat, area: nat)
    requires 2 * v == e + a + b && 0 <= e <= 1
    ensures v * (2 * area) == e * area + a * area + b * area
    ensures 0 <= e * area <= area
  {
    Regroup(v, 2, area);
    DistributeError(e, a + b, area);
    Distribute(a, b, area);
    ScaledError(e, area);
  }

  lemma FourNear(a: nat, b: nat, c: nat, d: nat, area: nat, sa: nat, sb: nat, sc: nat, sd: nat, k: nat)
    requires Near(a, area, sa, k) && Near(b, area, sb, k) && Near(c, area, sc, k) && Near(d, area, sd, k)
    ensures Near(Box(a, b, c, d), 4 * area, sa + sb + sc + sd, k + 1)
  {
    BoxRounds(a, b, c, d);
    Times4(Box(a, b, c, d), 4 * Box(a, b, c, d) - (a + b + c + d), a, b, c, d, area);
    LevelScale(k, area, 4);
  }

  lemma LevelScale(k: nat, area: nat, n: nat)
    ensures (k + 1) * (n * area) == n * (k * area) + n * area
  {
  }

  lemma TwoNear(a: nat, b: nat, area: nat, sa: nat, sb: nat, k: nat)
    requires Near(a, area, sa, k) && Near(b, area, sb, k)
    ensures Near(Box(a, b, a, b), 2 * area, sa + sb, k + 1)
    ensures Near(Box(a, a, b, b), 2 * area, sa + sb, k + 1)
  {
    Times2(Box(a, b, a, b), 2 * Box(a, b, a, b) - (a + b), a, b, area);
    LevelScale(k, area, 2);
  }

  lemma OneNear(a: nat, area: nat, s: nat, k: nat)
    requires Near(a, area, s, k)
    ensures Near(Box(a, a, a, a), area, s, k + 1)
  {
    assert (k + 1) * area == k * area + area;
  }

  lemma CoverDoubles(i: nat, level: nat)
    ensures level < i ==> Cover(i, level + 1) == 2 * Cover(i, level)
    ensures level >= i ==> Cover(i, level + 1) == Cover(i, level)
    ensures level < i ==> DimAt(Pow2(i), level) == 2 * DimAt(Pow2(i), level + 1)
    ensures level >= i ==> DimAt(Pow2(i), level) == 1 && DimAt(Pow2(i), level + 1) == 1
  {
    DimIsPow2(i, level);
    DimIsPow2(i, level + 1);
  }

  /** The second position exists exactly when the axis still halves. */
  lemma SecondIs(i: nat, level: nat, x: nat)
    requires x < DimAt(Pow2(i), level + 1)
    ensures 2 * x < DimAt(Pow2(i), level) && Second(x, DimAt(Pow2(i), level)) < DimAt(Pow2(i), level)
    ensures Second(x, DimAt(Pow2(i), level)) == if level < i then 2 * x + 1 else 2 * x
    ensures level >= i ==> x == 0
  {
    CoverDoubles(i, level);
  }

  /** Along one axis: what a texel covers is what its two sources cover. */
  lemma CoverStarts(i: nat, level: nat, x: nat)
    ensures level < i ==> x * Cover(i, level + 1) == 2 * x * Cover(i, level)
    ensures level < i ==> (2 * x + 1) * Cover(i, level) == 2 * x * Cover(i, level) + Cover(i, level)
    ensures level >= i && x == 0 ==> x * Cover(i, level + 1) == 2 * x * Cover(i, level)
  {
    CoverDoubles(i, level);
  }

  lemma AreaGrows(i: nat, j: nat, level: nat)
    ensures Area(i, j, level + 1) == (if level < i then 2 else 1) * ((if level < j then 2 else 1) * Area(i, j, level))
  {
    hide Cover;
    CoverDoubles(i, level);
    CoverDoubles(j, level);
    Doubling(Cover(i, level), Cover(j, level));
    Doubling(Cover(i, level), 2 * Cover(j, level));
  }

  lemma Doubling(n: nat, m: nat)
    ensures (2 * n) * m == 2 * (n * m) && n * (2 * m) == 2 * (n * m)
  {
  }

  lemma BlockSplits(base: Plane, x0: nat, y0: nat, n: nat, m: nat)
    ensures BlockSum(base, x0, y0, 2 * n, m) == BlockSum(base, x0, y0, n, m) + BlockSum(base, x0 + n, y0, n, m)
    ensures BlockSum(base, x0, y0, n, 2 * m) == BlockSum(base, x0, y0, n, m) + BlockSum(base, x0, y0 + m, n, m)
    ensures BlockSum(base, x0, y0, 2 * n, 2 * m)
         == BlockSum(base, x0, y0, n, m) + BlockSum(base, x0 + n, y0, n, m)
            + BlockSum(base, x0, y0 + m, n, m) + BlockSum(base, x0 + n, y0 + m, n, m)
  {
    hide BlockSum;
    BlockSplitsAcross(base, x0, y0, n, n, m);
    BlockSplitsAcross(base, x0, y0 + m, n, n, m);
    BlockSplitsDown(base, x0, y0, n, m, m);
    BlockSplitsDown(base, x0, y0, 2 * n, m, m);
  }

  /** The block a texel covers is made of the blocks of its sources. */
  lemma CoveredSplits(base: Plane, i: nat, j: nat, level: nat, x: nat, y: nat)
    requires InLevel(i, j, level + 1, x, y)
    ensures Covered(base, i, j, level + 1, x, y) ==
              Covered(base, i, j, level, 2 * x, 2 * y)
              + (if level < i then Covered(base, i, j, level, 2 * x + 1, 2 * y) else 0)
              + (if level < j then Covered(base, i, j, level, 2 * x, 2 * y + 1) else 0)
              + (if level < i && level < j then Covered(base, i, j, level, 2 * x + 1, 2 * y + 1) else 0)
  {
    hide Cover, BlockSum;
    CoverDoubles(i, level);
    CoverDoubles(j, level);
    SecondIs(i, level, x);
    SecondIs(j, level, y);
    CoverStarts(i, level, x);
    CoverStarts(j, level, y);
    BlockSplits(base, 2 * x * Cover(i, level), 2 * y * Cover(j, level), Cover(i, level), Cover(j, level));
  }

  lemma LevelUnfolds(base: Plane, w: nat, h: nat, level: nat, x: nat, y: nat)
    requires 0 < level
    ensures var x1, y1 := Second(x, DimAt(w, level - 1)), Second(y, DimAt(h, level - 1));
            Level(base, w, h, level, x, y)
            == Box(Level(base, w, h, level - 1, 2 * x, 2 * y), Level(base, w, h, level - 1, x1, 2 * y),
                   Level(base, w, h, level - 1, 2 * x, y1), Level(base, w, h, level - 1, x1, y1))
  {
    hide Box, Second, DimAt;
  }

  ghost predicate NearMean(base: Plane, i: nat, j: nat, level: nat, x: nat, y: nat) {
    Near(At(base, i, j, level, x, y), Area(i, j, level), Covered(base, i, j, level, x, y), level)
  }

  /** One level up. */
  lemma NearStep(base: Plane, i: nat, j: nat, k: nat, x: nat, y: nat)
    requires InLevel(i, j, k + 1, x, y)
    requires var x1, y1 := Second(x, DimAt(Pow2(i), k)), Second(y, DimAt(Pow2(j), k));
             && NearMean(base, i, j, k, 2 * x, 2 * y) && NearMean(base, i, j, k, x1, 2 * y)
             && NearMean(base, i, j, k, 2 * x, y1) && NearMean(base, i, j, k, x1, y1)
    ensures NearMean(base, i, j, k + 1, x, y)
  {
    hide Covered, Area, Near, Box, Level, DimAt, Second;
    LevelUnfolds(base, Pow2(i), Pow2(j), k + 1, x, y);
    SecondIs(i, k, x);
    SecondIs(j, k, y);
    CoveredSplits(base, i, j, k, x, y);
    AreaGrows(i, j, k);
    var x1, y1 := Second(x, DimAt(Pow2(i), k)), Second(y, DimAt(Pow2(j), k));
    var a, b := At(base, i, j, k, 2 * x, 2 * y), At(base, i, j, k, x1, 2 * y);
    var c, d := At(base, i, j, k, 2 * x, y1), At(base, i, j, k, x1, y1);
    var area := Area(i, j, k);
    if k < i && k < j {
      FourNear(a, b, c, d, area, Covered(base, i, j, k, 2 * x, 2 * y), Covered(base, i, j, k, x1, 2 * y),
               Covered(base, i, j, k, 2 * x, y1), Covered(base, i, j, k, x1, y1), k);
    } else if k < i {
      TwoNear(a, b, area, Covered(base, i, j, k, 2 * x, 2 * y), Covered(base, i, j, k, x1, 2 * y), k);
    } else if k < j {
      TwoNear(a, c, area, Covered(base, i, j, k, 2 * x, 2 * y), Covered(base, i, j, k, 2 * x, y1), k);
    } else {
      OneNear(a, area, Covered(base, i, j, k, 2 * x, 2 * y), k);
    }
  }

  /** The component at level k differs from the exact mean of what it covers by at
      most k / 2. */
  lemma {:induction false} LevelNearMean(base: Plane, i: nat, j: nat, level: nat, x: nat, y: nat)
    requires InLevel(i, j, level, x, y)
    ensures Near(At(base, i, j, level, x, y), Area(i, j, level), Covered(base, i, j, level, x, y), level)
  {
    hide Covered, Area, Near, Level, Second;
    if level == 0 {
      LevelZero(base, i, j, x, y);
    } else {
      var k := level - 1;
      SecondIs(i, k, x);
      SecondIs(j, k, y);
      var x1, y1 := Second(x, DimAt(Pow2(i), k)), Second(y, DimAt(Pow2(j), k));
      LevelNearMean(base, i, j, k, 2 * x, 2 * y);
      LevelNearMean(base, i, j, k, x1, 2 * y);
      LevelNearMean(base, i, j, k, 2 * x, y1);
      LevelNearMean(base, i, j, k, x1, y1);
      NearStep(base, i, j, k, x, y);
    }
  }

  lemma LevelZero(base: Plane, i: nat, j: nat, x: nat, y: nat)
    ensures Near(At(base, i, j, 0, x, y), Area(i, j, 0), Covered(base, i, j, 0, x, y), 0)
  {
    assert Cover(i, 0) == 1 && Cover(j, 0) == 1;
    assert RowSum(base, x, y, 1) == RowSum(base, x, y, 0) + base(x, y);
    assert BlockSum(base, x, y, 1, 1) == BlockSum(base, x, y, 1, 0) + RowSum(base, x, y, 1);
  }

  /** Every base component a texel covers lies between `low` and `high`. */
  ghost predicate Between(base: Plane, x0: nat, y0: nat, n: nat, m: nat, low: nat, high: nat) {
    forall x, y :: x0 <= x < x0 + n && y0 <= y < y0 + m ==> low <= base(x, y) <= high
  }

  ghost predicate CoveredBetween(base: Plane, i: nat, j: nat, level: nat, x: nat, y: nat, low: nat, high: nat) {
    Between(base, x * Cover(i, level), y * Cover(j, level), Cover(i, level), Cover(j, level), low, high)
  }

  lemma SourcesBetween(base: Plane, i: nat, j: nat, level: nat, x: nat, y: nat, low: nat, high: nat)
    requires InLevel(i, j, level + 1, x, y)
    requires CoveredBetween(base, i, j, level + 1, x, y, low, high)
    ensures var x1, y1 := Second(x, DimAt(Pow2(i), level)), Second(y, DimAt(Pow2(j), level));
            && CoveredBetween(base, i, j, level, 2 * x, 2 * y, low, high)
            && CoveredBetween(base, i, j, level, x1, 2 * y, low, high)
            && CoveredBetween(base, i, j, level, 2 * x, y1, low, high)
            && CoveredBetween(base, i, j, level, x1, y1, low, high)
  {
    hide Cover;
    CoverDoubles(i, level);
    CoverDoubles(j, level);
    SecondIs(i, level, x);
    SecondIs(j, level, y);
    CoverStarts(i, level, x);
    CoverStarts(j, level, y);
  }

  /** A generated component lies between the least and the greatest component it
      covers; in particular a constant image stays constant. */
  lemma {:induction false} LevelBetween(base: Plane, i: nat, j: nat, level: nat, x: nat, y: nat, low: nat, high: nat)
    requires InLevel(i, j, level, x, y)
    requires CoveredBetween(base, i, j, level, x, y, low, high)
    ensures low <= At(base, i, j, level, x, y) <= high
  {
    if level == 0 {
      assert Cover(i, 0) == 1 && Cover(j, 0) == 1;
    } else {
      hide CoveredBetween;
      var k := level - 1;
      SecondIs(i, k, x);
      SecondIs(j, k, y);
      var x1, y1 := Second(x, DimAt(Pow2(i), k)), Second(y, DimAt(Pow2(j), k));
      SourcesBetween(base, i, j, k, x, y, low, high);
      LevelBetween(base, i, j, k, 2 * x, 2 * y, low, high);
      LevelBetween(base, i, j, k, x1, 2 * y, low, high);
      LevelBetween(base, i, j, k, 2 * x, y1, low, high);
      LevelBetween(base, i, j, k, x1, y1, low, high);
    }
  }

  // ----------------------------------------------------------- level counts

  const MAX_LEVELS: nat := 13

  /** What the loop of texture_mip_level_count has still to count. */
  function CountFrom(width: nat, height: nat, count: nat): (r: nat)
    ensures count <= r
    decreases width + height
  {
    if (width > 1 || height > 1) && count < MAX_LEVELS
    then CountFrom(if width > 1 then width / 2 else width, if height > 1 then height / 2 else height, count + 1)
    else count
  }

  function LevelCount(width: nat, height: nat): nat { CountFrom(width, height, 1) }

  method MipLevelCount(width: nat, height: nat) returns (count: nat)
    ensures count == LevelCount(width, height)
  {
    var w, h := width, height;
    count := 1;
    while (w > 1 || h > 1) && count < MAX_LEVELS
      invariant CountFrom(w, h, count) == LevelCount(width, height)
      decreases w + h
    {
      if w > 1 {
        w := w / 2;
      }
      if h > 1 {
        h := h / 2;
      }
      count := count + 1;
    }
  }

  /** texture_expected_mip_width and texture_expected_mip_height. */
  method ExpectedDim(size: nat, level: nat) returns (d: nat)
    requires 0 < size
    ensures d == DimAt(size, level)
  {
    d := size;
    var left: nat := level;
    while left != 0 && d > 1
      invariant 0 <= left <= level && 0 < d && d == DimAt(size, level - left)
      decreases left
    {
      d := d / 2;
      left := left - 1;
    }
    DimStays(size, level - left, level);
  }

  lemma {:induction false} DimStays(size: nat, a: nat, b: nat)
    requires a <= b && (a < b ==> DimAt(size, a) == 1)
    ensures DimAt(size, b) == DimAt(size, a)
  {
    if a < b {
      DimStays(size, a, b - 1);
    }
  }

  /** The count is where both axes have come down to one texel, and the limit of
      thirteen levels never cuts a chain of legal size short. */
  lemma {:induction false} CountIsExact(w: nat, h: nat, level: nat)
    requires 0 < w && 0 < h && DimAt(w, level) * Pow2(level) <= 4096 && DimAt(h, level) * Pow2(level) <= 4096
    ensures var n := CountFrom(DimAt(w, level), DimAt(h, level), level + 1);
            && level < n <= MAX_LEVELS
            && DimAt(w, n - 1) == 1 && DimAt(h, n - 1) == 1
            && forall k :: level <= k < n - 1 ==> DimAt(w, k) > 1 || DimAt(h, k) > 1
    decreases DimAt(w, level) + DimAt(h, level)
  {
    DimPositive(w, level);
    DimPositive(h, level);
    TwelveLevels(level, DimAt(w, level), DimAt(h, level));
    if DimAt(w, level) > 1 || DimAt(h, level) > 1 {
      HalvedFits(DimAt(w, level), Pow2(level));
      HalvedFits(DimAt(h, level), Pow2(level));
      CountIsExact(w, h, level + 1);
    }
  }

  lemma {:induction false} DimPositive(d: nat, level: nat)
    requires 0 < d
    ensures 0 < DimAt(d, level)
  {
    if level > 0 {
      DimPositive(d, level - 1);
    }
  }

  lemma HalvedFits(d: nat, two: nat)
    requires 0 < d && d * two <= 4096 && 2 * two <= 4096
    ensures Halve(d) * (2 * two) <= 4096
  {
    MulMonotone(2 * Halve(d), d, two);
    assert Halve(d) * (2 * two) == 2 * Halve(d) * two;
  }

  lemma {:induction false} TwelveLevels(level: nat, a: nat, b: nat)
    requires 0 < a && 0 < b && a * Pow2(level) <= 4096 && b * Pow2(level) <= 4096
    ensures level <= 12
    ensures a > 1 || b > 1 ==> level < 12 && 2 * Pow2(level) <= 4096
  {
    MulMonotone(1, a, Pow2(level));
    if a > 1 || b > 1 {
      MulMonotone(2, if a > 1 then a else b, Pow2(level));
    }
    PowerBelow(level, 12);
    assert Pow2(12) == 4096;
  }

  lemma {:induction false} PowerBelow(a: nat, b: nat)
    ensures a <= b ==> Pow2(a) <= Pow2(b)
    ensures a < b ==> 2 * Pow2(a) <= Pow2(b)
    ensures b < a ==> 2 * Pow2(b) <= Pow2(a)
  {
    if a < b {
      PowerBelow(a, b - 1);
    } else if b < a {
      PowerBelow(a - 1, b);
    }
  }

  // ------------------------------------------------------------ chain bytes

  function AreaAt(w: nat, h: nat, level: nat): nat { DimAt(w, level) * DimAt(h, level) }

  /** Texels of the levels from `level` up to `count`. */
  function AreaFrom(w: nat, h: nat, level: nat, count: nat): nat
    decreases count - level
  {
    if level >= count then 0 else AreaAt(w, h, level) + AreaFrom(w, h, level + 1, count)
  }

  /** All the higher levels together hold fewer texels than the level below them. */
  lemma {:induction false} ChainIsSmaller(w: nat, h: nat, level: nat, count: nat)
    requires 0 < w && 0 < h && level < count
    requires forall k :: level <= k < count - 1 ==> DimAt(w, k) > 1 || DimAt(h, k) > 1
    ensures AreaFrom(w, h, level + 1, count) < AreaAt(w, h, level)
    decreases count - level
  {
    DimPositive(w, level);
    DimPositive(h, level);
    if level + 1 < count {
      ChainIsSmaller(w, h, level + 1, count);
      var a, b := DimAt(w, level), DimAt(h, level);
      HalvesArea(a, b);
    } else {
      MulMonotone(1, DimAt(w, level), DimAt(h, level));
    }
  }

  lemma HalvesArea(a: nat, b: nat)
    requires 0 < a && 0 < b && (a > 1 || b > 1)
    ensures 2 * (Halve(a) * Halve(b)) <= a * b
  {
    MulMonotone(2 * Halve(a), a, Halve(b));
    MulMonotone(2 * Halve(b), b, Halve(a));
    MulMonotone(Halve(a), a, b);
    MulMonotone(Halve(b), b, a);
  }
}
