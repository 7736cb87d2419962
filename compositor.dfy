/**
 * The per-frame and per-cell arithmetic of the grid shimmer: grid geometry, the pass
 * colour cache, sweep strength, the strength-weighted tint, pointer glow, noise and the
 * clamped alpha. Both copies of the component share these formulas and differ only in
 * the constants gathered in `Config`.
 */
module Compositor {
  import opened JsMath
  import opened Color
  import opened Sweep

  /**
   * The constants that differ between the two copies of the component, and how each copy
   * decides whether a frame is drawn.
   */
  datatype Config = Config(
    alphaBase: real,       // constant term of the raw alpha
    sweepWeight: real,     // weight of `min(1, sTotal)`
    glowWeight: real,      // weight of the pointer glow
    alphaMin: real,        // lower clamp of alpha
    alphaMax: real,        // upper clamp of alpha
    tintAlphaScale: real,  // factor applied after clamping
    strokeAlpha: real,     // alpha of the white cell outline
    gateOnRunningRef: bool // true: test `running.current`; false: test `document.visibilityState`
  )

  /** The copy in `PortfolioClient.tsx`. */
  const PortfolioConfig: Config := Config(0.035, 0.36, 0.48, 0.03, 0.7, 0.55, 0.06, false)
  /** The copy in `page.tsx`. */
  const PageConfig: Config := Config(0.026, 0.33, 0.45, 0.02, 0.65, 0.42, 0.04, true)

  predicate ConfigOk(c: Config) {
    0.0 <= c.alphaMin <= c.alphaMax && 0.0 <= c.tintAlphaScale
  }

  lemma ShippedConfigsOk()
    ensures ConfigOk(PortfolioConfig) && ConfigOk(PageConfig)
  {
  }

  /**
   * The canvas size in CSS pixels and `Math.hypot(w, h)`, which is given as an input; the
   * model only uses that it is not negative.
   */
  datatype Viewport = Viewport(w: real, h: real, diag: real)

  predicate ViewportOk(v: Viewport) {
    v.w >= 0.0 && v.h >= 0.0 && v.diag >= 0.0
  }

  /**
   * `Math.exp` and `Math.sin`, uninterpreted, with the only facts the model uses:
   * `0 < exp(z) <= 1` for `z <= 0` and `-1 <= sin(z) <= 1`.
   */
  datatype Numerics = Numerics(exp: real -> real, sin: real -> real)

  ghost predicate NumericsOk(n: Numerics) {
    && (forall z :: z <= 0.0 ==> 0.0 < n.exp(z) <= 1.0)
    && (forall z :: -1.0 <= n.sin(z) <= 1.0)
  }

  /** `coarseBoost`: cells grow by half on a coarse pointer, and never shrink. */
  function CoarseBoost(coarse: bool): (cb: real)
    ensures 1.0 <= cb <= 1.5
    ensures coarse <==> cb > 1.0
  {
    if coarse then 1.5 else 1.0
  }

  /**
   * `cell = max(20·cb, min(42·cb, floor(min(w, h) / 22)))`: always within [20·cb, 42·cb],
   * equal to the floored quotient whenever that is inside the band, and saturated at the
   * nearer end of the band otherwise.
   */
  function CellSize(w: real, h: real, coarse: bool): (cell: real)
    ensures 20.0 * CoarseBoost(coarse) <= cell <= 42.0 * CoarseBoost(coarse)
    ensures var f := Floor(Min(w, h) / 22.0) as real;
            20.0 * CoarseBoost(coarse) <= f <= 42.0 * CoarseBoost(coarse) ==> cell == f
    ensures var f := Floor(Min(w, h) / 22.0) as real;
            && (f < 20.0 * CoarseBoost(coarse) ==> cell == 20.0 * CoarseBoost(coarse))
            && (f > 42.0 * CoarseBoost(coarse) ==> cell == 42.0 * CoarseBoost(coarse))
    ensures cell >= 20.0
  {
    var cb := CoarseBoost(coarse);
    Clamp(20.0 * cb, 42.0 * cb, Floor(Min(w, h) / 22.0) as real)
  }

  /**
   * `Math.ceil(extent / cell)`: the fewest cells that cover the extent, so `n · cell`
   * reaches the extent and `(n − 1) · cell` does not.
   */
  function GridCount(extent: real, cell: real): (n: int)
    requires extent >= 0.0 && cell > 0.0
    ensures n >= 0
  {
    CeilCovers(extent, cell);
    Ceil(extent / cell)
  }

  /** The grid covers the extent, and one cell fewer would not. */
  lemma GridCountCovers(extent: real, cell: real)
    requires extent >= 0.0 && cell > 0.0
    ensures GridCount(extent, cell) as real * cell >= extent
    ensures GridCount(extent, cell) == 0 || (GridCount(extent, cell) - 1) as real * cell < extent
  {
    CeilCovers(extent, cell);
  }

  lemma CeilCovers(extent: real, cell: real)
    requires extent >= 0.0 && cell > 0.0
    ensures Ceil(extent / cell) >= 0
    ensures Ceil(extent / cell) as real * cell >= extent
    ensures Ceil(extent / cell) == 0 || (Ceil(extent / cell) - 1) as real * cell < extent
  {
    DivMul(extent, cell);
    CeilReaches(extent, cell);
    CeilTight(extent, cell);
  }

  lemma CeilReaches(extent: real, cell: real)
    requires extent >= 0.0 && cell > 0.0 && (extent / cell) * cell == extent
    ensures Ceil(extent / cell) >= 0
    ensures Ceil(extent / cell) as real * cell >= extent
  {
    var q := extent / cell;
    MulMonotone(q, Ceil(q) as real, cell);
    if q < 0.0 {
      MulStrict(q, 0.0, cell);
    }
  }

  lemma CeilTight(extent: real, cell: real)
    requires cell > 0.0 && (extent / cell) * cell == extent
    ensures Ceil(extent / cell) == 0 || (Ceil(extent / cell) - 1) as real * cell < extent
  {
    var q := extent / cell;
    var n := Ceil(q);
    if n != 0 {
      var m := n - 1;
      assert m as real < q;
      MulStrict(m as real, q, cell);
    }
  }

  /** Everything a frame derives from the viewport before touching the passes. */
  datatype Geometry = Geometry(cell: real, cols: int, rows: int, speed: real, margin: real, band: real, sigma: real)

  /** The geometry block of `draw`: cell, columns, rows, speed, margin, band and sigma. */
  function GeometryOf(v: Viewport, coarse: bool): (g: Geometry)
    requires ViewportOk(v)
    ensures 20.0 * CoarseBoost(coarse) <= g.cell <= 42.0 * CoarseBoost(coarse)
    ensures g.cols == GridCount(v.w, g.cell) && g.rows == GridCount(v.h, g.cell)
    ensures g.speed == v.diag * SpeedFactor && g.speed >= 0.0
    ensures g.margin == g.cell * 4.0
    ensures g.cell == CellSize(v.w, v.h, coarse)
    ensures g.band == Max(g.cell * 6.0, v.diag * 0.3) && g.band > 0.0
    ensures g.sigma == Min(35.0, g.cell * 0.8) && g.sigma > 0.0
  {
    var cell := CellSize(v.w, v.h, coarse);
    var cols := GridCount(v.w, cell);
    var rows := GridCount(v.h, cell);
    var band := Max(cell * 6.0, v.diag * 0.3);
    var sigma := Min(35.0, cell * 0.8);
    Geometry(cell, cols, rows, v.diag * SpeedFactor, cell * 4.0, band, sigma)
  }

  /** The lifecycle's view of the geometry. */
  function ExtentOf(v: Viewport, g: Geometry): (e: Extent)
    requires ViewportOk(v) && g.speed >= 0.0 && g.margin >= 0.0
    ensures ExtentOk(e) && e.w == v.w && e.h == v.h && e.speed == g.speed && e.margin == g.margin
  {
    Extent(v.w, v.h, g.speed, g.margin)
  }

  /** An entry of `passCache`: the pass position, its eased fade, its blended colour and direction. */
  datatype CachedPass = CachedPass(pos: Pos, mixT: real, color: Rgb, ux: real, uy: real)

  /** `hslToRgb((hue % 360) / 360, 0.75, 0.65)`. */
  function HueColor(hue: real): (c: Rgb)
    ensures InGamut(c)
  {
    HslToRgb(Rem(hue, 360.0) / 360.0, 0.75, 0.65)
  }

  /** `Math.round(lerp(a, b, t))`: between the two channel values when `t` is in [0, 1]. */
  function BlendChannel(a: int, b: int, t: real): (v: int)
    requires 0.0 <= t <= 1.0
    ensures Min(a as real, b as real) <= v as real <= Max(a as real, b as real)
    ensures t == 0.0 ==> v == a
    ensures t == 1.0 ==> v == b
  {
    var x := Lerp(a as real, b as real, t);
    if a <= b then RoundWithin(x, a, b); Round(x)
    else RoundWithin(x, b, a); Round(x)
  }

  /**
   * One entry of `passCache`. The colour is each channel of the "from" hue blended toward
   * the "to" hue by the eased fade, so it is in gamut and between the two.
   */
  function CachePass(p: Pass): (c: CachedPass)
    requires 0.0 <= p.hueT <= 1.0
    ensures c.pos == p.pos && c.ux == p.ux && c.uy == p.uy
    ensures c.mixT == EaseInOutCubic(p.hueT) && 0.0 <= c.mixT <= 1.0
    ensures InGamut(c.color)
    ensures var c1 := HueColor(p.hueFrom); var c2 := HueColor(p.hueTo);
            && Min(c1.r as real, c2.r as real) <= c.color.r as real <= Max(c1.r as real, c2.r as real)
            && Min(c1.g as real, c2.g as real) <= c.color.g as real <= Max(c1.g as real, c2.g as real)
            && Min(c1.b as real, c2.b as real) <= c.color.b as real <= Max(c1.b as real, c2.b as real)
    ensures p.hueT == 1.0 ==> c.color == HueColor(p.hueTo)
  {
    var mixT := EaseInOutCubic(p.hueT);
    var c1 := HueColor(p.hueFrom);
    var c2 := HueColor(p.hueTo);
    if p.hueT == 1.0 then EaseEndpoints(); CachedPassOf(p, mixT, c1, c2)
    else CachedPassOf(p, mixT, c1, c2)
  }

  function CachedPassOf(p: Pass, mixT: real, c1: Rgb, c2: Rgb): (c: CachedPass)
    requires 0.0 <= mixT <= 1.0 && InGamut(c1) && InGamut(c2)
    ensures InGamut(c.color)
  {
    var col := Rgb(BlendChannel(c1.r, c2.r, mixT), BlendChannel(c1.g, c2.g, mixT), BlendChannel(c1.b, c2.b, mixT));
    CachedPass(p.pos, mixT, col, p.ux, p.uy)
  }

  /** `passes.map(...)`: one cache entry per pass, in order. */
  function PassCache(ps: seq<Pass>): (cache: seq<CachedPass>)
    requires forall i :: 0 <= i < |ps| ==> 0.0 <= ps[i].hueT <= 1.0
    ensures |cache| == |ps|
    ensures forall i :: 0 <= i < |ps| ==> cache[i] == CachePass(ps[i])
  {
    seq(|ps|, i requires 0 <= i < |ps| => CachePass(ps[i]))
  }

  /** Every entry the model can produce: fade in [0, 1] and colour in gamut. */
  predicate CacheOk(cache: seq<CachedPass>) {
    forall i :: 0 <= i < |cache| ==> 0.0 <= cache[i].mixT <= 1.0 && InGamut(cache[i].color)
  }

  lemma DivMul(a: real, b: real)
    requires b > 0.0
    ensures (a / b) * b == a
  {
  }

  lemma DivNonpos(a: real, b: real)
    requires a <= 0.0 && b > 0.0
    ensures a / b <= 0.0
  {
    DivUpper(a, b, 0.0);
  }

  lemma DivAtLeastOne(d: real, band: real)
    requires band > 0.0
    ensures d / band >= 1.0 <==> d >= band
  {
    DivMul(d, band);
    var q := d / band;
    if q >= 1.0 { MulMonotone(1.0, q, band); }
    if q < 1.0 { MulStrict(q, 1.0, band); }
  }

  /** `crest = max(0, 1 − d / band)` for a distance `d`: 1 on the line, 0 from `band` on. */
  function Crest(d: real, band: real): (c: real)
    requires band > 0.0 && d >= 0.0
    ensures 0.0 <= c <= 1.0
    ensures c == 0.0 <==> d >= band
    ensures d == 0.0 ==> c == 1.0
  {
    var q := d / band;
    DivAtLeastOne(d, band);
    assert q >= 0.0;
    Max(0.0, 1.0 - q)
  }

  /**
   * The sweep strength `crest² · mixT` of one pass at point (x, y). A pass at −∞ is
   * infinitely far from every cell: its crest, and so its strength, is 0.
   */
  function Strength(x: real, y: real, cp: CachedPass, band: real): (s: real)
    requires band > 0.0
    ensures 0.0 <= cp.mixT <= 1.0 ==> 0.0 <= s <= 1.0
    ensures 0.0 <= cp.mixT ==> s <= cp.mixT
    ensures cp.pos.NegInfinity? ==> s == 0.0
    ensures cp.mixT == 0.0 ==> s == 0.0
  {
    match cp.pos
    case NegInfinity => 0.0
    case Finite(v) =>
      CrestSquared(Crest(Abs(x * cp.ux + y * cp.uy - v), band), cp.mixT)
  }

  /** `crest * crest * mixT`: between 0 and the fade `m`, and 0 when the fade is. */
  function CrestSquared(c: real, m: real): (s: real)
    requires 0.0 <= c <= 1.0
    ensures 0.0 <= m ==> 0.0 <= s <= m
    ensures m == 0.0 ==> s == 0.0
  {
    var s := (c * c) * m;
    CrestWeight(c, m, s);
    s
  }

  /** `c² · m` with `c` in [0, 1] lies between 0 and `m` for `m >= 0`. */
  lemma CrestWeight(c: real, m: real, s: real)
    requires 0.0 <= c <= 1.0 && s == (c * c) * m
    ensures 0.0 <= m ==> 0.0 <= s <= m
    ensures m == 0.0 ==> s == 0.0
  {
    var c2 := c * c;
    assert c2 <= 1.0 by { UnitScale(c, c); }
    assert 0.0 <= c2 by { NonnegProduct(c, c); }
    if 0.0 <= m {
      MulMonotone(c2, 1.0, m);
      NonnegProduct(c2, m);
    }
  }

  /** Only strengths above this threshold take part in the tint and the sweep alpha. */
  const Threshold: real := 0.0001

  predicate Contributes(x: real, y: real, cp: CachedPass, band: real)
    requires band > 0.0
  {
    Strength(x, y, cp, band) > Threshold
  }

  /**
   * What a pass adds to `sTotal` at (x, y): its strength when that passes the threshold,
   * and nothing otherwise.
   */
  function Weight(x: real, y: real, cp: CachedPass, band: real): (w: real)
    requires band > 0.0
    ensures w > 0.0 <==> Contributes(x, y, cp, band)
    ensures w == 0.0 || w > Threshold
    ensures 0.0 <= cp.mixT <= 1.0 ==> 0.0 <= w <= 1.0
  {
    var s := Strength(x, y, cp, band);
    if s > Threshold then s else 0.0
  }

  /** The weight of every cached pass at (x, y), in cache order. */
  function Weights(x: real, y: real, cache: seq<CachedPass>, band: real): (ws: seq<real>)
    requires band > 0.0
    ensures |ws| == |cache|
    ensures forall k :: 0 <= k < |cache| ==> ws[k] == Weight(x, y, cache[k], band)
  {
    seq(|cache|, k requires 0 <= k < |cache| => Weight(x, y, cache[k], band))
  }

  /** One colour channel (0 red, 1 green, 2 blue) of a colour. */
  function Channel(c: Rgb, ch: int): int {
    if ch == 0 then c.r else if ch == 1 then c.g else c.b
  }

  /** Channel `ch` of every cached pass colour, in cache order, as the reals the sums multiply. */
  function Channels(cache: seq<CachedPass>, ch: int): (vs: seq<real>)
    ensures |vs| == |cache|
    ensures forall k :: 0 <= k < |cache| ==> vs[k] == Channel(cache[k].color, ch) as real
  {
    seq(|cache|, k requires 0 <= k < |cache| => Channel(cache[k].color, ch) as real)
  }

  /** The sum of the first `n` weights: `sTotal` after `n` passes. */
  function Total(ws: seq<real>, n: nat): real
    requires n <= |ws|
  {
    if n == 0 then 0.0 else Total(ws, n - 1) + ws[n - 1]
  }

  /** The sum of `value · weight` over the first `n` passes: `rAcc`, `gAcc` or `bAcc` after `n` passes. */
  function WeightedSum(ws: seq<real>, vs: seq<real>, n: nat): real
    requires n <= |ws| == |vs|
  {
    if n == 0 then 0.0 else WeightedSum(ws, vs, n - 1) + vs[n - 1] * ws[n - 1]
  }

  /** The four accumulators of one cell: `sTotal`, `rAcc`, `gAcc`, `bAcc`. */
  datatype Sums = Sums(s: real, r: real, g: real, b: real)

  /** The accumulators of the cell at (x, y), once every cached pass is folded in. */
  function SweepSums(x: real, y: real, cache: seq<CachedPass>, band: real): Sums
    requires band > 0.0
  {
    var ws := Weights(x, y, cache, band);
    Sums(Total(ws, |ws|), WeightedSum(ws, Channels(cache, 0), |ws|), WeightedSum(ws, Channels(cache, 1), |ws|),
         WeightedSum(ws, Channels(cache, 2), |ws|))
  }

  /** A total of weights that are never negative is positive exactly when one weight is. */
  lemma {:induction false} TotalPositiveIff(ws: seq<real>, n: nat)
    requires n <= |ws|
    requires forall k :: 0 <= k < |ws| ==> ws[k] >= 0.0
    ensures Total(ws, n) >= 0.0
    ensures Total(ws, n) > 0.0 <==> exists k :: 0 <= k < n && ws[k] > 0.0
  {
    if n > 0 {
      TotalPositiveIff(ws, n - 1);
      if exists k :: 0 <= k < n - 1 && ws[k] > 0.0 {
        var k :| 0 <= k < n - 1 && ws[k] > 0.0;
        assert 0 <= k < n && ws[k] > 0.0;
      } else if ws[n - 1] > 0.0 {
        assert 0 <= n - 1 < n && ws[n - 1] > 0.0;
      }
    }
  }

  lemma ZeroProduct(c: real, w: real)
    requires w == 0.0
    ensures c * w == 0.0
  {
  }

  /** With every weight 0, every weighted sum is 0. */
  lemma {:induction false} WeightedSumZero(ws: seq<real>, vs: seq<real>, n: nat)
    requires n <= |ws| == |vs|
    requires forall k :: 0 <= k < |ws| ==> ws[k] == 0.0
    ensures WeightedSum(ws, vs, n) == 0.0
  {
    if n > 0 {
      WeightedSumZero(ws, vs, n - 1);
      ZeroProduct(vs[n - 1], ws[n - 1]);
    }
  }

  /** `sTotal` is positive exactly when some pass contributes at (x, y). */
  lemma SumsPositiveIffContribution(x: real, y: real, cache: seq<CachedPass>, band: real)
    requires band > 0.0
    ensures SweepSums(x, y, cache, band).s >= 0.0
    ensures SweepSums(x, y, cache, band).s > 0.0 <==> exists k :: 0 <= k < |cache| && Contributes(x, y, cache[k], band)
    ensures (forall k :: 0 <= k < |cache| ==> !Contributes(x, y, cache[k], band)) ==>
              SweepSums(x, y, cache, band) == Sums(0.0, 0.0, 0.0, 0.0)
  {
    var ws := Weights(x, y, cache, band);
    TotalPositiveIff(ws, |ws|);
    if forall k :: 0 <= k < |cache| ==> !Contributes(x, y, cache[k], band) {
      WeightedSumZero(ws, Channels(cache, 0), |ws|);
      WeightedSumZero(ws, Channels(cache, 1), |ws|);
      WeightedSumZero(ws, Channels(cache, 2), |ws|);
    }
  }

  /** `lo·S <= a` carries over to equal `S'` and `a'`. */
  lemma Carry(lo: real, acc: real, sum: real, acc': real, sum': real)
    requires lo * sum <= acc && sum' == sum && acc' == acc
    ensures lo * sum' <= acc'
  {
  }

  lemma CarryUpper(hi: real, acc: real, sum: real, acc': real, sum': real)
    requires acc <= hi * sum && sum' == sum && acc' == acc
    ensures acc' <= hi * sum'
  {
  }

  /** Adding `c · s` to an accumulator at least `lo·S`, and `s` to `S`, keeps it at least `lo` times the new total. */
  lemma AccumulateLower(lo: real, c: real, acc: real, sum: real, s: real, acc': real, sum': real)
    requires lo * sum <= acc && lo <= c && s >= 0.0
    requires sum' == sum + s && acc' == acc + c * s
    ensures lo * sum' <= acc'
  {
    MulMonotone(lo, c, s);
    assert lo * (sum + s) == lo * sum + lo * s;
  }

  /** The same for an upper bound `hi`. */
  lemma AccumulateUpper(hi: real, c: real, acc: real, sum: real, s: real, acc': real, sum': real)
    requires acc <= hi * sum && c <= hi && s >= 0.0
    requires sum' == sum + s && acc' == acc + c * s
    ensures acc' <= hi * sum'
  {
    MulMonotone(c, hi, s);
    assert hi * (sum + s) == hi * sum + hi * s;
  }

  /** The arithmetic of `LowerStep`: a weight that is 0 or carries a value at least `lo`. */
  lemma Lower(lo: real, c: real, w: real, a: real, t: real, a': real, t': real)
    requires w >= 0.0 && (w > 0.0 ==> lo <= c) && lo * t <= a
    requires t' == t + w && a' == a + c * w
    ensures lo * t' <= a'
  {
    if w > 0.0 {
      AccumulateLower(lo, c, a, t, w, a', t');
    } else {
      assert w == 0.0;
      ZeroProduct(c, w);
      Carry(lo, a, t, a', t');
    }
  }

  /** The arithmetic of `UpperStep`. */
  lemma Upper(hi: real, c: real, w: real, a: real, t: real, a': real, t': real)
    requires w >= 0.0 && (w > 0.0 ==> c <= hi) && a <= hi * t
    requires t' == t + w && a' == a + c * w
    ensures a' <= hi * t'
  {
    if w > 0.0 {
      AccumulateUpper(hi, c, a, t, w, a', t');
    } else {
      assert w == 0.0;
      ZeroProduct(c, w);
      CarryUpper(hi, a, t, a', t');
    }
  }

  /**
   * Pass `n - 1` folded into a lower bound, with the sums it multiplies passed as plain
   * values: `a`, `t` before it and `a'`, `t'` after it.
   */
  lemma LowerStep(ws: seq<real>, vs: seq<real>, lo: real, n: nat, a: real, t: real, a': real, t': real)
    requires 0 < n <= |ws| == |vs|
    requires a == WeightedSum(ws, vs, n - 1) && t == Total(ws, n - 1)
    requires a' == WeightedSum(ws, vs, n) && t' == Total(ws, n)
    requires ws[n - 1] >= 0.0 && (ws[n - 1] > 0.0 ==> lo <= vs[n - 1])
    requires lo * t <= a
    ensures lo * t' <= a'
  {
    Lower(lo, vs[n - 1], ws[n - 1], a, t, a', t');
  }

  /** The same step for an upper bound. */
  lemma UpperStep(ws: seq<real>, vs: seq<real>, hi: real, n: nat, a: real, t: real, a': real, t': real)
    requires 0 < n <= |ws| == |vs|
    requires a == WeightedSum(ws, vs, n - 1) && t == Total(ws, n - 1)
    requires a' == WeightedSum(ws, vs, n) && t' == Total(ws, n)
    requires ws[n - 1] >= 0.0 && (ws[n - 1] > 0.0 ==> vs[n - 1] <= hi)
    requires a <= hi * t
    ensures a' <= hi * t'
  {
    Upper(hi, vs[n - 1], ws[n - 1], a, t, a', t');
  }

  /** A weighted sum whose weighted values are at least `lo` is at least `lo` times the total weight. */
  lemma {:induction false} WeightedSumLower(ws: seq<real>, vs: seq<real>, lo: real, n: nat)
    requires n <= |ws| == |vs|
    requires forall k :: 0 <= k < |ws| ==> ws[k] >= 0.0 && (ws[k] > 0.0 ==> lo <= vs[k])
    ensures lo * Total(ws, n) <= WeightedSum(ws, vs, n)
  {
    if n == 0 {
      ZeroProduct(lo, Total(ws, 0));
    } else {
      WeightedSumLower(ws, vs, lo, n - 1);
      LowerStep(ws, vs, lo, n, WeightedSum(ws, vs, n - 1), Total(ws, n - 1), WeightedSum(ws, vs, n), Total(ws, n));
    }
  }

  /** A weighted sum whose weighted values are at most `hi` is at most `hi` times the total weight. */
  lemma {:induction false} WeightedSumUpper(ws: seq<real>, vs: seq<real>, hi: real, n: nat)
    requires n <= |ws| == |vs|
    requires forall k :: 0 <= k < |ws| ==> ws[k] >= 0.0 && (ws[k] > 0.0 ==> vs[k] <= hi)
    ensures WeightedSum(ws, vs, n) <= hi * Total(ws, n)
  {
    if n == 0 {
      ZeroProduct(hi, Total(ws, 0));
    } else {
      WeightedSumUpper(ws, vs, hi, n - 1);
      UpperStep(ws, vs, hi, n, WeightedSum(ws, vs, n - 1), Total(ws, n - 1), WeightedSum(ws, vs, n), Total(ws, n));
    }
  }

  /** Bounds on every colour channel of the passes that contribute at (x, y). */
  predicate ChannelsWithin(x: real, y: real, cache: seq<CachedPass>, band: real, lo: Rgb, hi: Rgb)
    requires band > 0.0
  {
    forall k :: 0 <= k < |cache| && Contributes(x, y, cache[k], band) ==>
      && lo.r <= cache[k].color.r <= hi.r
      && lo.g <= cache[k].color.g <= hi.g
      && lo.b <= cache[k].color.b <= hi.b
  }

  /** `lo·S <= a` with `S > 0` gives `lo <= a / S`. */
  lemma DivLower(a: real, sum: real, lo: real)
    requires sum > 0.0 && lo * sum <= a
    ensures lo <= a / sum
  {
    DivMul(a, sum);
    if a / sum < lo { MulStrict(a / sum, lo, sum); }
  }

  /** `a <= hi·S` with `S > 0` gives `a / S <= hi`. */
  lemma DivUpper(a: real, sum: real, hi: real)
    requires sum > 0.0 && a <= hi * sum
    ensures a / sum <= hi
  {
    DivMul(a, sum);
    if a / sum > hi { MulStrict(hi, a / sum, sum); }
  }

  /** The cell colour: white when `sTotal` is 0, otherwise each channel's rounded weighted average. */
  function Tint(acc: Sums): Rgb {
    if acc.s > 0.0 then Rgb(Round(acc.r / acc.s), Round(acc.g / acc.s), Round(acc.b / acc.s))
    else White
  }

  /** A positive-weight average of values at least `lo` is at least `lo`. */
  lemma AverageLower(ws: seq<real>, vs: seq<real>, lo: real)
    requires |ws| == |vs| && Total(ws, |ws|) > 0.0
    requires forall k :: 0 <= k < |ws| ==> ws[k] >= 0.0 && (ws[k] > 0.0 ==> lo <= vs[k])
    ensures lo <= WeightedSum(ws, vs, |ws|) / Total(ws, |ws|)
  {
    WeightedSumLower(ws, vs, lo, |ws|);
    DivLower(WeightedSum(ws, vs, |ws|), Total(ws, |ws|), lo);
  }

  /** A positive-weight average of values at most `hi` is at most `hi`. */
  lemma AverageUpper(ws: seq<real>, vs: seq<real>, hi: real)
    requires |ws| == |vs| && Total(ws, |ws|) > 0.0
    requires forall k :: 0 <= k < |ws| ==> ws[k] >= 0.0 && (ws[k] > 0.0 ==> vs[k] <= hi)
    ensures WeightedSum(ws, vs, |ws|) / Total(ws, |ws|) <= hi
  {
    WeightedSumUpper(ws, vs, hi, |ws|);
    DivUpper(WeightedSum(ws, vs, |ws|), Total(ws, |ws|), hi);
  }

  /** A positive-weight average of integer values in [lo, hi], rounded, stays in [lo, hi]. */
  lemma RoundedAverageWithin(ws: seq<real>, vs: seq<real>, lo: int, hi: int)
    requires |ws| == |vs| && Total(ws, |ws|) > 0.0
    requires forall k :: 0 <= k < |ws| ==> ws[k] >= 0.0 && (ws[k] > 0.0 ==> lo as real <= vs[k] <= hi as real)
    ensures lo <= Round(WeightedSum(ws, vs, |ws|) / Total(ws, |ws|)) <= hi
  {
    AverageLower(ws, vs, lo as real);
    AverageUpper(ws, vs, hi as real);
    RoundWithin(WeightedSum(ws, vs, |ws|) / Total(ws, |ws|), lo, hi);
  }

  /**
   * When some pass contributes, every channel of the tint lies between the bounds of the
   * contributing passes' channel.
   */
  lemma TintWithin(x: real, y: real, cache: seq<CachedPass>, band: real, lo: Rgb, hi: Rgb)
    requires band > 0.0 && CacheOk(cache) && ChannelsWithin(x, y, cache, band, lo, hi)
    ensures var acc := SweepSums(x, y, cache, band);
            acc.s > 0.0 ==> var t := Tint(acc);
              lo.r <= t.r <= hi.r && lo.g <= t.g <= hi.g && lo.b <= t.b <= hi.b
  {
    var ws := Weights(x, y, cache, band);
    if Total(ws, |ws|) > 0.0 {
      RoundedAverageWithin(ws, Channels(cache, 0), lo.r, hi.r);
      RoundedAverageWithin(ws, Channels(cache, 1), lo.g, hi.g);
      RoundedAverageWithin(ws, Channels(cache, 2), lo.b, hi.b);
    }
  }

  /** The tint keeps its white default exactly when no pass contributes. */
  lemma TintWhiteWithoutContribution(x: real, y: real, cache: seq<CachedPass>, band: real)
    requires band > 0.0
    ensures (forall k :: 0 <= k < |cache| ==> !Contributes(x, y, cache[k], band)) <==>
            SweepSums(x, y, cache, band).s == 0.0
    ensures (forall k :: 0 <= k < |cache| ==> !Contributes(x, y, cache[k], band)) ==>
            Tint(SweepSums(x, y, cache, band)) == White
  {
    SumsPositiveIffContribution(x, y, cache, band);
  }

  lemma PrefixSnoc<A>(s: seq<A>, j: int)
    requires 0 <= j < |s|
    ensures s[..j + 1] == s[..j] + [s[j]]
  {
  }

  /** `a = a0 + p·q` with `p`, `q` renamed to equal values. */
  lemma Rename(a: real, a0: real, p: real, q: real, v: real, w: real)
    requires a == a0 + p * q && p == v && q == w
    ensures a == a0 + v * w
  {
  }

  /** One `acc += value * s` step: it extends the weighted sum over passes `0..j` by pass `j`. */
  method AddWeighted(acc: real, v: real, w: real, ghost ws: seq<real>, ghost vs: seq<real>, ghost j: nat)
      returns (acc': real)
    requires j < |ws| == |vs| && acc == WeightedSum(ws, vs, j) && v == vs[j] && w == ws[j]
    ensures acc' == WeightedSum(ws, vs, j + 1)
  {
    acc' := acc + v * w;
    Rename(WeightedSum(ws, vs, j + 1), WeightedSum(ws, vs, j), vs[j], ws[j], v, w);
  }

  /** A pass of weight 0 leaves every sum as it was. */
  lemma ZeroStep(ws: seq<real>, vs: seq<real>, j: nat)
    requires j < |ws| == |vs| && ws[j] == 0.0
    ensures Total(ws, j + 1) == Total(ws, j)
    ensures WeightedSum(ws, vs, j + 1) == WeightedSum(ws, vs, j)
  {
    ZeroProduct(vs[j], ws[j]);
  }

  /**
   * The accumulation loop over `passCache` for one cell, which computes exactly the
   * specification sums.
   */
  method AccumulateSweeps(x: real, y: real, cache: seq<CachedPass>, band: real)
      returns (sTotal: real, rAcc: real, gAcc: real, bAcc: real)
    requires band > 0.0
    ensures Sums(sTotal, rAcc, gAcc, bAcc) == SweepSums(x, y, cache, band)
    ensures sTotal >= 0.0
  {
    ghost var ws := Weights(x, y, cache, band);
    ghost var rs, gs, bs := Channels(cache, 0), Channels(cache, 1), Channels(cache, 2);
    sTotal, rAcc, gAcc, bAcc := 0.0, 0.0, 0.0, 0.0;
    var j := 0;
    while j < |cache|
      invariant 0 <= j <= |cache|
      invariant sTotal == Total(ws, j)
      invariant rAcc == WeightedSum(ws, rs, j)
      invariant gAcc == WeightedSum(ws, gs, j)
      invariant bAcc == WeightedSum(ws, bs, j)
    {
      var cp := cache[j];
      var s := Strength(x, y, cp, band);
      if s > Threshold {
        assert ws[j] == s;
        sTotal := sTotal + s;
        rAcc := AddWeighted(rAcc, cp.color.r as real, s, ws, rs, j);
        gAcc := AddWeighted(gAcc, cp.color.g as real, s, ws, gs, j);
        bAcc := AddWeighted(bAcc, cp.color.b as real, s, ws, bs, j);
      } else {
        ZeroStep(ws, rs, j);
        ZeroStep(ws, gs, j);
        ZeroStep(ws, bs, j);
      }
      j := j + 1;
    }
    TotalPositiveIff(ws, |ws|);
  }

  /** The pointer as `draw` reads it: `active && motionOK`, then the coordinates. */
  datatype PointerSample = PointerSample(active: bool, x: real, y: real)

  /**
   * The pointer glow `exp(−dist² / (2σ²))` at (x, y): exactly 0 when the pointer is inactive
   * or reduced motion is on, and otherwise in (0, 1].
   */
  function Glow(ptr: PointerSample, x: real, y: real, sigma: real, num: Numerics): (g: real)
    requires sigma > 0.0 && NumericsOk(num)
    ensures !ptr.active ==> g == 0.0
    ensures ptr.active ==> 0.0 < g <= 1.0
  {
    if ptr.active then
      GaussExponentNonpositive(Dist2(x, y, ptr.x, ptr.y), sigma);
      num.exp(-Dist2(x, y, ptr.x, ptr.y) / (2.0 * sigma * sigma))
    else 0.0
  }

  /** The Gaussian's exponent `−d² / (2σ²)` is never positive. */
  lemma GaussExponentNonpositive(d2: real, sigma: real)
    requires d2 >= 0.0 && sigma > 0.0
    ensures 2.0 * sigma * sigma > 0.0
    ensures -d2 / (2.0 * sigma * sigma) <= 0.0
  {
    var twice := 2.0 * sigma;
    MulStrict(0.0, twice, sigma);
    DivNonpos(-d2, twice * sigma);
  }

  /** `dx² + dy²`, the squared distance between two points. */
  function Dist2(x0: real, y0: real, x1: real, y1: real): (d: real)
    ensures d >= 0.0
  {
    SquareNonneg(x0 - x1);
    SquareNonneg(y0 - y1);
    (x0 - x1) * (x0 - x1) + (y0 - y1) * (y0 - y1)
  }

  /** `(sin((x + y)·0.05 + now·0.0018) + 1)·0.02`, in [0, 0.04]. */
  function Noise(x: real, y: real, now: real, num: Numerics): (n: real)
    requires NumericsOk(num)
    ensures 0.0 <= n <= 0.04
  {
    (num.sin((x + y) * 0.05 + now * 0.0018) + 1.0) * 0.02
  }

  /** The alpha before clamping: base + sweep + glow + noise. */
  function RawAlpha(cfg: Config, sTotal: real, glow: real, noise: real): real {
    cfg.alphaBase + Min(1.0, sTotal) * cfg.sweepWeight + glow * cfg.glowWeight + noise
  }

  /**
   * The cell alpha: the raw alpha clamped to [alphaMin, alphaMax], then multiplied by the
   * tint scale, whatever the sweep, glow and noise terms are.
   */
  function Alpha(cfg: Config, sTotal: real, glow: real, noise: real): (a: real)
    requires ConfigOk(cfg)
    ensures cfg.alphaMin * cfg.tintAlphaScale <= a <= cfg.alphaMax * cfg.tintAlphaScale
    ensures var raw := RawAlpha(cfg, sTotal, glow, noise);
            && (cfg.alphaMin <= raw <= cfg.alphaMax ==> a == raw * cfg.tintAlphaScale)
            && (raw < cfg.alphaMin ==> a == cfg.alphaMin * cfg.tintAlphaScale)
            && (raw > cfg.alphaMax ==> a == cfg.alphaMax * cfg.tintAlphaScale)
  {
    var clamped := Clamp(cfg.alphaMin, cfg.alphaMax, RawAlpha(cfg, sTotal, glow, noise));
    MulMonotone(cfg.alphaMin, clamped, cfg.tintAlphaScale);
    MulMonotone(clamped, cfg.alphaMax, cfg.tintAlphaScale);
    clamped * cfg.tintAlphaScale
  }

  /** The two shipped alpha bands: [0.03, 0.7]·0.55 and [0.02, 0.65]·0.42. */
  lemma ShippedAlphaBands(s: real, glow: real, noise: real)
    ensures 0.03 * 0.55 <= Alpha(PortfolioConfig, s, glow, noise) <= 0.7 * 0.55
    ensures 0.02 * 0.42 <= Alpha(PageConfig, s, glow, noise) <= 0.65 * 0.42
  {
    ShippedConfigsOk();
  }

  /** What one cell is filled with. */
  datatype Fill = Fill(color: Rgb, alpha: real)

  /** The centre of cell (`rI`, `cI`). */
  function CellCentre(g: Geometry, rI: int, cI: int): (real, real) {
    (cI as real * g.cell + g.cell / 2.0, rI as real * g.cell + g.cell / 2.0)
  }

  /** The fill of cell (`rI`, `cI`): tint from the sweep sums, alpha from sweep, glow and noise. */
  function CellFill(cfg: Config, g: Geometry, cache: seq<CachedPass>, ptr: PointerSample, now: real,
                    num: Numerics, rI: int, cI: int): (f: Fill)
    requires ConfigOk(cfg) && g.band > 0.0 && g.sigma > 0.0 && NumericsOk(num)
  {
    var (x, y) := CellCentre(g, rI, cI);
    var acc := SweepSums(x, y, cache, g.band);
    Fill(Tint(acc), Alpha(cfg, acc.s, Glow(ptr, x, y, g.sigma, num), Noise(x, y, now, num)))
  }

  /** Every cell's alpha lies in the configured band, scaled by the tint factor. */
  lemma CellAlphaWithin(cfg: Config, g: Geometry, cache: seq<CachedPass>, ptr: PointerSample, now: real,
                        num: Numerics, rI: int, cI: int)
    requires ConfigOk(cfg) && g.band > 0.0 && g.sigma > 0.0 && NumericsOk(num)
    ensures var f := CellFill(cfg, g, cache, ptr, now, num, rI, cI);
            cfg.alphaMin * cfg.tintAlphaScale <= f.alpha <= cfg.alphaMax * cfg.tintAlphaScale
  {
    var (x, y) := CellCentre(g, rI, cI);
    var acc := SweepSums(x, y, cache, g.band);
    var a := Alpha(cfg, acc.s, Glow(ptr, x, y, g.sigma, num), Noise(x, y, now, num));
  }

  /** A cell that no pass reaches is painted white. */
  lemma CellWhiteWithoutContribution(cfg: Config, g: Geometry, cache: seq<CachedPass>, ptr: PointerSample,
                                     now: real, num: Numerics, rI: int, cI: int)
    requires ConfigOk(cfg) && g.band > 0.0 && g.sigma > 0.0 && NumericsOk(num)
    ensures var (x, y) := CellCentre(g, rI, cI);
            (forall k :: 0 <= k < |cache| ==> !Contributes(x, y, cache[k], g.band)) ==>
            CellFill(cfg, g, cache, ptr, now, num, rI, cI).color == White
  {
    var (x, y) := CellCentre(g, rI, cI);
    TintWhiteWithoutContribution(x, y, cache, g.band);
  }

  /** Without an active pointer the glow term drops out of the cell alpha. */
  lemma CellWithoutPointer(cfg: Config, g: Geometry, cache: seq<CachedPass>, ptr: PointerSample,
                           now: real, num: Numerics, rI: int, cI: int)
    requires ConfigOk(cfg) && g.band > 0.0 && g.sigma > 0.0 && NumericsOk(num) && !ptr.active
    ensures var (x, y) := CellCentre(g, rI, cI);
            CellFill(cfg, g, cache, ptr, now, num, rI, cI).alpha ==
            Alpha(cfg, SweepSums(x, y, cache, g.band).s, 0.0, Noise(x, y, now, num))
  {
  }

  /** The body of the column loop: one cell's glow, accumulation, tint, noise and alpha. */
  method ShadeCell(cfg: Config, g: Geometry, cache: seq<CachedPass>, ptr: PointerSample, now: real,
                   num: Numerics, rI: int, cI: int) returns (f: Fill)
    requires ConfigOk(cfg) && g.band > 0.0 && g.sigma > 0.0 && NumericsOk(num)
    ensures f == CellFill(cfg, g, cache, ptr, now, num, rI, cI)
  {
    var (x, y) := CellCentre(g, rI, cI);
    var glow := Glow(ptr, x, y, g.sigma, num);
    var sTotal, rAcc, gAcc, bAcc := AccumulateSweeps(x, y, cache, g.band);
    var tint := White;
    if sTotal > 0.0 {
      tint := Rgb(Round(rAcc / sTotal), Round(gAcc / sTotal), Round(bAcc / sTotal));
    }
    var noise := Noise(x, y, now, num);
    f := Fill(tint, Alpha(cfg, sTotal, glow, noise));
  }

  /** `grid` holds `g.rows` rows of `g.cols` cells, each with the fill `CellFill` gives it. */
  predicate Painted(cfg: Config, g: Geometry, cache: seq<CachedPass>, ptr: PointerSample, now: real, num: Numerics,
                    grid: seq<seq<Fill>>)
    requires ConfigOk(cfg) && g.band > 0.0 && g.sigma > 0.0 && NumericsOk(num)
  {
    && |grid| == g.rows
    && (forall rI :: 0 <= rI < g.rows ==> |grid[rI]| == g.cols)
    && (forall rI, cI :: 0 <= rI < g.rows && 0 <= cI < g.cols ==>
          grid[rI][cI] == CellFill(cfg, g, cache, ptr, now, num, rI, cI))
  }

  /**
   * The nested row/column loop of `draw`: row `rI`, column `cI` of the result is that cell's
   * fill.
   */
  method Composite(cfg: Config, g: Geometry, cache: seq<CachedPass>, ptr: PointerSample, now: real, num: Numerics)
      returns (grid: seq<seq<Fill>>)
    requires ConfigOk(cfg) && g.band > 0.0 && g.sigma > 0.0 && NumericsOk(num)
    requires g.rows >= 0 && g.cols >= 0
    ensures Painted(cfg, g, cache, ptr, now, num, grid)
  {
    grid := [];
    var rI := 0;
    while rI < g.rows
      invariant 0 <= rI <= g.rows && |grid| == rI
      invariant forall r :: 0 <= r < rI ==> |grid[r]| == g.cols
      invariant forall r, c :: 0 <= r < rI && 0 <= c < g.cols ==> grid[r][c] == CellFill(cfg, g, cache, ptr, now, num, r, c)
    {
      var row: seq<Fill> := [];
      var cI := 0;
      while cI < g.cols
        invariant 0 <= cI <= g.cols && |row| == cI
        invariant forall c :: 0 <= c < cI ==> row[c] == CellFill(cfg, g, cache, ptr, now, num, rI, c)
      {
        var f := ShadeCell(cfg, g, cache, ptr, now, num, rI, cI);
        row := row + [f];
        cI := cI + 1;
      }
      grid := grid + [row];
      rI := rI + 1;
    }
  }
}
