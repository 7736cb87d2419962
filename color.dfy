/**
 * Colour and easing helpers of the grid shimmer: the cubic ease, linear
 * interpolation, the HSL to RGB conversion and the random blue-or-yellow hue.
 */
module Color {
  import opened JsMath

  /** An RGB triple as `hslToRgb` returns it: each channel a rounded integer. */
  datatype Rgb = Rgb(r: int, g: int, b: int)

  predicate InGamut(c: Rgb) {
    0 <= c.r <= 255 && 0 <= c.g <= 255 && 0 <= c.b <= 255
  }

  const White: Rgb := Rgb(255, 255, 255)

  /** `Math.pow(x, 3)`. */
  function Cube(x: real): real {
    x * x * x
  }

  /** Scaling by a factor in [0, 1] keeps a non-negative number between 0 and itself. */
  lemma UnitScale(m: real, x: real)
    requires m >= 0.0 && 0.0 <= x <= 1.0
    ensures m * x <= m
  {
    assert m - m * x == m * (1.0 - x);
  }

  lemma ScaleDown(x: real, m: real)
    requires 0.0 <= x <= 1.0 && m >= 0.0
    ensures x * m <= m
  {
    assert m - x * m == (1.0 - x) * m;
  }

  lemma NonnegProduct(a: real, b: real)
    requires a >= 0.0 && b >= 0.0
    ensures a * b >= 0.0
  {
  }

  lemma SquareNonneg(x: real)
    ensures x * x >= 0.0
  {
    if x < 0.0 {
      NonnegProduct(-x, -x);
      assert (-x) * (-x) == x * x;
    } else {
      NonnegProduct(x, x);
    }
  }

  /** Scaling by a factor in [−1, 1] keeps a number within its own magnitude. */
  lemma SignedUnitScale(a: real, c: real)
    requires a >= 0.0 && -1.0 <= c <= 1.0
    ensures -a <= a * c <= a
  {
    if c >= 0.0 {
      assert a * c <= a by { UnitScale(a, c); }
      assert a * c >= 0.0 by { NonnegProduct(a, c); }
    } else {
      assert a * -c <= a by { UnitScale(a, -c); }
      assert a * -c >= 0.0 by { NonnegProduct(a, -c); }
      assert a * c == -(a * -c);
    }
  }

  /** Right multiplication by a non-negative factor keeps order. */
  lemma MulMonotone(a: real, b: real, m: real)
    requires m >= 0.0 && a <= b
    ensures a * m <= b * m
  {
    assert b * m - a * m == (b - a) * m;
  }

  lemma MulStrict(a: real, b: real, m: real)
    requires m > 0.0 && a < b
    ensures a * m < b * m
  {
    assert b * m - a * m == (b - a) * m;
  }

  lemma CubeMonotone(a: real, b: real)
    requires 0.0 <= a <= b
    ensures 0.0 <= Cube(a) <= Cube(b)
    ensures a < b ==> Cube(a) < Cube(b)
  {
    var aa, bb := a * a, b * b;
    assert 0.0 <= aa <= bb by {
      MulMonotone(0.0, a, a);
      MulMonotone(a, b, a);
      MulMonotone(a, b, b);
    }
    assert 0.0 <= aa * a <= bb * b by {
      MulMonotone(0.0, aa, a);
      MulMonotone(aa, bb, a);
      MulMonotone(a, b, bb);
      assert a * bb == bb * a;
    }
    assert a < b ==> aa * a < bb * b by {
      if a < b {
        MulStrict(a, b, bb - aa + b);
        StrictCube(a, b);
      }
    }
  }

  lemma StrictCube(a: real, b: real)
    requires 0.0 <= a < b
    ensures a * a * a < b * b * b
  {
    var d := b - a;
    assert b * b * b - a * a * a == d * (a * a + a * b + b * b);
    assert b * b > 0.0 by { MulStrict(0.0, b, b); }
    assert a * a >= 0.0 by { NonnegProduct(a, a); }
    assert a * b >= 0.0 by { NonnegProduct(a, b); }
    MulStrict(0.0, d, a * a + a * b + b * b);
  }

  /** `easeInOutCubic`: `4t³` below one half, `1 − (2 − 2t)³ / 2` from one half on. */
  function EaseInOutCubic(t: real): (r: real)
    ensures 0.0 <= t <= 1.0 ==> 0.0 <= r <= 1.0
    ensures 0.0 <= t < 0.5 ==> r < 0.5
    ensures 0.5 <= t <= 1.0 ==> 0.5 <= r
  {
    if t < 0.5 then
      assert 0.0 <= t ==> 0.0 <= Cube(t) < Cube(0.5) by {
        if 0.0 <= t { CubeMonotone(t, 0.5); }
      }
      4.0 * Cube(t)
    else
      assert t <= 1.0 ==> 0.0 <= Cube(-2.0 * t + 2.0) <= Cube(1.0) by {
        if t <= 1.0 { CubeMonotone(-2.0 * t + 2.0, 1.0); }
      }
      1.0 - Cube(-2.0 * t + 2.0) / 2.0
  }

  lemma EaseEndpoints()
    ensures EaseInOutCubic(0.0) == 0.0
    ensures EaseInOutCubic(0.5) == 0.5
    ensures EaseInOutCubic(1.0) == 1.0
  {
  }

  /** The ease never runs backwards on [0, 1]. */
  lemma EaseMonotone(a: real, b: real)
    requires 0.0 <= a <= b <= 1.0
    ensures EaseInOutCubic(a) <= EaseInOutCubic(b)
  {
    if b < 0.5 {
      CubeMonotone(a, b);
    } else if a >= 0.5 {
      CubeMonotone(-2.0 * b + 2.0, -2.0 * a + 2.0);
    }
  }

  /** The ease is point-symmetric about (1/2, 1/2). */
  lemma EaseSymmetric(t: real)
    requires 0.0 <= t <= 1.0
    ensures EaseInOutCubic(1.0 - t) == 1.0 - EaseInOutCubic(t)
  {
    CubeDouble(t);
    CubeDouble(1.0 - t);
    assert 2.0 * (1.0 - t) == 2.0 - 2.0 * t;
    if t < 0.5 {
      assert -2.0 * (1.0 - t) + 2.0 == 2.0 * t;
    } else if t > 0.5 {
      assert -2.0 * t + 2.0 == 2.0 - 2.0 * t;
    }
  }

  lemma CubeDouble(x: real)
    ensures Cube(2.0 * x) == 8.0 * Cube(x)
  {
    var y, xx := 2.0 * x, x * x;
    assert y * y == 4.0 * xx;
    assert (y * y) * y == 8.0 * (xx * x);
  }

  /** `lerp(a, b, t) = a + (b − a)·t`. */
  function Lerp(a: real, b: real, t: real): (r: real)
    ensures t == 0.0 ==> r == a
    ensures t == 1.0 ==> r == b
    ensures 0.0 <= t <= 1.0 ==> Min(a, b) <= r <= Max(a, b)
  {
    LerpBetween(a, b, t);
    a + (b - a) * t
  }

  lemma LerpBetween(a: real, b: real, t: real)
    ensures 0.0 <= t <= 1.0 ==> Min(a, b) <= a + (b - a) * t <= Max(a, b)
  {
    if 0.0 <= t <= 1.0 {
      if a <= b {
        var p := (b - a) * t;
        assert p <= b - a by { UnitScale(b - a, t); }
        assert 0.0 <= p by { NonnegProduct(b - a, t); }
      } else {
        var p := (a - b) * t;
        assert p <= a - b by { UnitScale(a - b, t); }
        assert 0.0 <= p by { NonnegProduct(a - b, t); }
        assert (b - a) * t == -p;
      }
    }
  }

  /** One channel of `hslToRgb`: the helper `f(n)` of the source. */
  function HslChannel(n: real, h: real, s: real, l: real): (v: int)
    requires 0.0 <= s <= 1.0 && 0.0 <= l <= 1.0
    ensures 0 <= v <= 255
  {
    var m := Min(l, 1.0 - l);
    var a := s * m;
    var k := Rem(n + h * 12.0, 12.0);
    var c := Max(-1.0, Min(k - 3.0, Min(9.0 - k, 1.0)));
    var col := l - a * c;
    assert a <= m by { ScaleDown(s, m); }
    assert 0.0 <= a by { NonnegProduct(s, m); }
    assert -a <= a * c by { SignedUnitScale(a, c); }
    assert a * c <= a by { SignedUnitScale(a, c); }
    assert l - a <= col;
    assert col <= l + a;
    assert 0.0 <= col;
    assert col <= 1.0;
    RoundWithin(col * 255.0, 0, 255);
    Round(col * 255.0)
  }

  /** `hslToRgb(h, s, l)` with `h`, `s`, `l` in [0, 1]: every channel lies in 0..255. */
  function HslToRgb(h: real, s: real, l: real): (c: Rgb)
    requires 0.0 <= s <= 1.0 && 0.0 <= l <= 1.0
    ensures InGamut(c)
  {
    Rgb(HslChannel(0.0, h, s, l), HslChannel(8.0, h, s, l), HslChannel(4.0, h, s, l))
  }

  /** The two hue bands of the palette: yellow [48, 60) and blue [200, 235) degrees. */
  predicate HueInRange(hue: real) {
    48.0 <= hue < 60.0 || 200.0 <= hue < 235.0
  }

  /**
   * `randomBlueYellowHue`: `coin` and `u` are the two `Math.random()` draws, the
   * first choosing the band and the second the place within it.
   */
  function RandomBlueYellowHue(coin: real, u: real): (hue: real)
    requires 0.0 <= u < 1.0
    ensures HueInRange(hue)
    ensures coin < 0.5 <==> hue < 60.0
  {
    if coin < 0.5 then 48.0 + u * 12.0 else 200.0 + u * 35.0
  }
}
