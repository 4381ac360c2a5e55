/** Per-pixel colour synthesis of `RPlot.create_graph`: the magnitude
    normalisers, the hue, saturation and value formulas, and `hsv_to_rgb`.
    Everything here works on one sample; the logarithm, the phase angle,
    `M ** 0.3` and pi are supplied by the caller as plain numbers. */
module Colour {
  import opened RealMath

  // ---------------------------------------------------------------------------
  // Magnitude normalisers

  /** Fractional position of `v` inside its band: `(v % d) / d`. */
  function BandPosition(v: real, d: real): (nv: real)
    requires d != 0.0
    ensures 0.0 <= nv < 1.0
    ensures nv == v / d - (v / d).Floor as real
  {
    var q := v / d;
    assert FloorMod(v, d) == d * (q - q.Floor as real);
    DivOfProduct(q - q.Floor as real, d);
    FloorMod(v, d) / d
  }

  /** Banded ("height line") normaliser of `_compute_magnitudes`: a periodic
      tent `|nv - 0.5| * 2` over the band position. `v` is the magnitude, or
      its logarithm when the log option is on. */
  function Band(v: real, d: real): (m: real)
    requires d != 0.0
    ensures 0.0 <= m <= 1.0
  {
    Abs(BandPosition(v, d) - 0.5) * 2.0
  }

  /** The tent repeats every band distance. */
  lemma BandPeriodic(v: real, d: real)
    requires d != 0.0
    ensures Band(v + d, d) == Band(v, d)
  {
    DivShift(v, d);
  }

  /** The tent is symmetric about zero. */
  lemma BandEven(v: real, d: real)
    requires d != 0.0
    ensures Band(-v, d) == Band(v, d)
  {
    var q := v / d;
    assert -v / d == -q;
    if q.Floor as real == q {
      assert (-q).Floor == -q.Floor;
    } else {
      assert (-q).Floor == -q.Floor - 1;
    }
  }

  /** The tent reaches 1 exactly at whole multiples of the band distance. */
  lemma BandPeak(v: real, d: real)
    requires d > 0.0
    ensures Band(v, d) == 1.0 <==> exists k: int :: v == Periods(k, d)
  {
    FloorModZero(v, d);
    var nv := BandPosition(v, d);
    assert Band(v, d) == 1.0 <==> nv == 0.0;
    assert nv == 0.0 <==> FloorMod(v, d) == 0.0;
  }

  /** The tent reaches 0 exactly at odd multiples of half the band distance. */
  lemma BandTrough(v: real, d: real)
    requires d > 0.0
    ensures Band(v, d) == 0.0 <==> exists k: int :: v == Periods(2 * k + 1, d / 2.0)
  {
    FloorModHalf(v, d);
    var nv := BandPosition(v, d);
    assert Band(v, d) == 0.0 <==> nv == 0.5;
    assert nv == 0.5 <==> FloorMod(v, d) == d / 2.0;
  }

  /** Unbanded linear normaliser: `1 - clip(|F|, 0, 1)`. */
  function LinearLevel(mag: real): (m: real)
    ensures 0.0 <= m <= 1.0
    ensures m == 0.0 <==> mag >= 1.0
    ensures 0.0 <= mag < 1.0 ==> m == 1.0 - mag
  {
    1.0 - Clip(mag, 0.0, 1.0)
  }

  /** Unbanded logarithmic normaliser: `1 - clip(ln|F|, 0.01, 2) * 0.5`. */
  function LogLevel(logMag: real): (m: real)
    ensures 0.0 <= m <= 0.995
    ensures m == 0.0 <==> logMag >= 2.0
    ensures m == 0.995 <==> logMag <= 0.01
  {
    1.0 - Clip(logMag, 0.01, 2.0) * 0.5
  }

  /** Both unbanded normalisers darken monotonically as the magnitude grows. */
  lemma LevelsAntitone(a: real, b: real)
    requires a <= b
    ensures LinearLevel(b) <= LinearLevel(a)
    ensures LogLevel(b) <= LogLevel(a)
  {
  }

  // ---------------------------------------------------------------------------
  // Hue, saturation and value

  /** Hue from the phase angle: `(angle % 2pi) / 2pi`. */
  function Hue(angle: real, pi: real): (h: real)
    requires pi > 0.0
    ensures 0.0 <= h < 1.0
  {
    BandPosition(angle, 2.0 * pi)
  }

  /** A full turn does not change the hue, and on `[0, 2pi)` the hue is the
      angle measured in turns. */
  lemma HueTurns(angle: real, pi: real)
    requires pi > 0.0
    ensures Hue(angle + 2.0 * pi, pi) == Hue(angle, pi)
    ensures 0.0 <= angle < 2.0 * pi ==> Hue(angle, pi) == angle / (2.0 * pi)
  {
    var d := 2.0 * pi;
    DivShift(angle, d);
    if 0.0 <= angle < d {
      DivStrictMono(angle, d, d);
      assert 0.0 <= angle / d < 1.0;
      assert (angle / d).Floor == 0;
    }
  }

  /** Saturation with banding: `1 - M**10 * 0.75`. */
  function BandedSaturation(m: real): (s: real)
    ensures 0.0 <= m <= 1.0 ==> 0.25 <= s <= 1.0
    ensures m == 0.0 ==> s == 1.0
    ensures m == 1.0 ==> s == 0.25
  {
    PowZero(9);
    PowOne(10);
    PowUnitWhen(m, 10);
    1.0 - Pow(m, 10) * 0.75
  }

  lemma PowUnitWhen(x: real, n: nat)
    ensures 0.0 <= x <= 1.0 ==> 0.0 <= Pow(x, n) <= 1.0
  {
    if 0.0 <= x <= 1.0 {
      PowUnit(x, n);
    }
  }

  lemma {:induction false} PowOne(n: nat)
    ensures Pow(1.0, n) == 1.0
  {
    if n > 0 { PowOne(n - 1); }
  }

  lemma PowZero(n: nat)
    ensures Pow(0.0, n + 1) == 0.0
  {
  }

  /** With banding a larger normalised magnitude never gives a more
      saturated colour. */
  lemma BandedSaturationAntitone(a: real, b: real)
    requires 0.0 <= a <= b
    ensures BandedSaturation(b) <= BandedSaturation(a)
  {
    PowMono(a, b, 10);
  }

  /** Value with banding: `(0.2 + M**0.3 * 0.8) * 256`, where `root` is `M**0.3`. */
  function BandedValue(root: real): (v: real)
    ensures 0.0 <= root <= 1.0 ==> 51.2 <= v <= 256.0
  {
    (0.2 + root * 0.8) * 256.0
  }

  /** Saturation without banding: `1 - M * 0.7`. */
  function PlainSaturation(m: real): (s: real)
    ensures 0.0 <= m <= 1.0 ==> 0.3 <= s <= 1.0
  {
    1.0 - m * 0.7
  }

  /** Value without banding: `(0.15 + M * 0.85) * 256`. */
  function PlainValue(m: real): (v: real)
    ensures 0.0 <= m <= 1.0 ==> 38.4 <= v <= 256.0
  {
    (0.15 + m * 0.85) * 256.0
  }

  /** Without banding a larger normalised magnitude gives a paler and brighter
      colour; with banding a larger `M**0.3` gives a brighter one. */
  lemma ShadeMonotone(a: real, b: real, ra: real, rb: real)
    requires a <= b && ra <= rb
    ensures PlainSaturation(b) <= PlainSaturation(a)
    ensures PlainValue(a) <= PlainValue(b)
    ensures BandedValue(ra) <= BandedValue(rb)
  {
  }

  // ---------------------------------------------------------------------------
  // HSV to RGB

  /** One pixel's channels, before the cast to bytes. */
  datatype Rgb = Rgb(r: real, g: real, b: real)

  /** `(h*6).astype(int)`: the sector, truncated toward zero and not yet clipped. */
  function Sector(h: real): int
  {
    Trunc(h * 6.0)
  }

  /** `hsv_to_rgb`: the six-sector table, indexed with `choose(..., mode="clip")`.
      The fraction `f` is taken from the unclipped sector. */
  function HsvToRgb(h: real, s: real, v: real): (c: Rgb)
    ensures s == 0.0 ==> c.r == v && c.g == v && c.b == v
  {
    var i := Sector(h);
    var f := h * 6.0 - i as real;
    SectorTable(ClipIndex(i, 0, 5), v, v * (1.0 - s), v * (1.0 - s * f), v * (1.0 - s * (1.0 - f)))
  }

  /** The rows `(v,q,p,p,t,v)`, `(t,v,v,q,p,p)` and `(p,p,t,v,v,q)` read at sector `k`. */
  function SectorTable(k: int, v: real, p: real, q: real, t: real): Rgb
    requires 0 <= k <= 5
  {
    Rgb([v, q, p, p, t, v][k], [t, v, v, q, p, p][k], [p, p, t, v, v, q][k])
  }

  /** Each sector shows `v` and `p` once each and one of `q`, `t` in between. */
  lemma SectorTableBounds(k: int, v: real, p: real, q: real, t: real)
    requires 0 <= k <= 5
    requires p <= q <= v && p <= t <= v
    ensures var c := SectorTable(k, v, p, q, t);
      && p <= c.r <= v && p <= c.g <= v && p <= c.b <= v
      && (c.r == v || c.g == v || c.b == v)
      && (c.r == p || c.g == p || c.b == p)
  {
  }

  /** For a hue in `[0, 1)` the sector needs no clipping and the fraction lies in `[0, 1)`. */
  lemma SectorOfHue(h: real)
    requires 0.0 <= h < 1.0
    ensures 0 <= Sector(h) <= 5
    ensures 0.0 <= h * 6.0 - Sector(h) as real < 1.0
  {
  }

  function Max3(c: Rgb): real {
    if c.r >= c.g && c.r >= c.b then c.r else if c.g >= c.b then c.g else c.b
  }

  function Min3(c: Rgb): real {
    if c.r <= c.g && c.r <= c.b then c.r else if c.g <= c.b then c.g else c.b
  }

  /** Every channel lies between `v(1 - s)` and `v`, and both ends are taken
      by some channel in every sector. */
  lemma HsvChannelBounds(h: real, s: real, v: real)
    requires 0.0 <= h < 1.0 && 0.0 <= s <= 1.0 && 0.0 <= v
    ensures var c := HsvToRgb(h, s, v);
      && v * (1.0 - s) <= c.r <= v && v * (1.0 - s) <= c.g <= v && v * (1.0 - s) <= c.b <= v
      && (c.r == v || c.g == v || c.b == v)
      && (c.r == v * (1.0 - s) || c.g == v * (1.0 - s) || c.b == v * (1.0 - s))
  {
    var k, f := HsvAsTable(h, s, v);
    var p, q, t := SectorTerms(s, f, v);
    SectorTableBounds(k, v, p, q, t);
  }

  /** The table's entries `p = v(1 - s)`, `q = v(1 - sf)` and `t = v(1 - s(1 - f))`
      for a fraction `f` in `[0, 1]`: `q` and `t` lie between `p` and `v`. */
  lemma SectorTerms(s: real, f: real, v: real) returns (p: real, q: real, t: real)
    requires 0.0 <= s <= 1.0 && 0.0 <= f <= 1.0 && 0.0 <= v
    ensures p == v * (1.0 - s) && q == v * (1.0 - s * f) && t == v * (1.0 - s * (1.0 - f))
    ensures p <= q <= v && p <= t <= v
  {
    p, q, t := v * (1.0 - s), v * (1.0 - s * f), v * (1.0 - s * (1.0 - f));
    TermBounds(s, f, v);
    TermBounds(s, 1.0 - f, v);
  }

  /** For a hue in `[0, 1)` the conversion is one row of the table, read at
      an unclipped sector with a fraction in `[0, 1)`. */
  lemma HsvAsTable(h: real, s: real, v: real) returns (k: int, f: real)
    requires 0.0 <= h < 1.0
    ensures k == Sector(h) && f == h * 6.0 - k as real
    ensures 0 <= k <= 5 && 0.0 <= f < 1.0
    ensures HsvToRgb(h, s, v) == SectorTable(k, v, v * (1.0 - s), v * (1.0 - s * f), v * (1.0 - s * (1.0 - f)))
  {
    SectorOfHue(h);
    k := Sector(h);
    f := h * 6.0 - k as real;
  }

  // ---------------------------------------------------------------------------
  // The hue can be read back

  /** The usual RGB-to-hue formula: the brightest channel picks a third of
      the circle, the other two channels' difference over the spread picks
      the place within it.  Defined when the channels are not all equal. */
  function RgbToHue(c: Rgb): real
    requires Min3(c) < Max3(c)
  {
    var d := Max3(c) - Min3(c);
    (if c.r >= c.g && c.r >= c.b then (if c.g >= c.b then (c.g - c.b) / d else 6.0 + (c.g - c.b) / d)
     else if c.g >= c.b then 2.0 + (c.b - c.r) / d
     else 4.0 + (c.r - c.g) / d) / 6.0
  }

  /** Row `k` of the table, with darkest entry `p`, spread `e` and rise `a`
      (the fraction times the spread), reads back as the hue `(k + a/e) / 6`. */
  lemma TableHue(k: int, p: real, e: real, a: real)
    requires 0 <= k <= 5 && 0.0 <= a < e
    ensures var c := SectorTable(k, p + e, p, p + (e - a), p + a);
            Min3(c) < Max3(c) && RgbToHue(c) == (k as real + a / e) / 6.0
  {
    var c := SectorTable(k, p + e, p, p + (e - a), p + a);
    assert Max3(c) - Min3(c) == e;
    DivSub(a, e, e);
    DivSub(e, a, e);
    assert e / e == 1.0;
  }

  /** For a visible colour (`s > 0`, `v > 0`) the conversion can be undone
      for the hue too: the formula above gives back `h`. */
  lemma HsvRecoversHue(h: real, s: real, v: real)
    requires 0.0 <= h < 1.0 && 0.0 < s <= 1.0 && 0.0 < v
    ensures Min3(HsvToRgb(h, s, v)) < Max3(HsvToRgb(h, s, v))
    ensures RgbToHue(HsvToRgb(h, s, v)) == h
  {
    var k, f := HsvAsTable(h, s, v);
    var p, e, a := TermsAsRise(s, v, f);
    TableHue(k, p, e, a);
  }

  /** The table's entries written as the darkest entry `p`, the spread `e`
      and the rise `a = e f`. */
  lemma TermsAsRise(s: real, v: real, f: real) returns (p: real, e: real, a: real)
    requires 0.0 < s <= 1.0 && 0.0 < v && 0.0 <= f < 1.0
    ensures p == v * (1.0 - s) && v == p + e && 0.0 <= a < e && a / e == f
    ensures v * (1.0 - s * f) == p + (e - a) && v * (1.0 - s * (1.0 - f)) == p + a
  {
    p, e := v * (1.0 - s), v * s;
    a := e * f;
    assert e > 0.0 by { MulPos(v, s); }
    assert 0.0 <= a < e by { assert e * f < e * 1.0; }
    assert a / e == f by { DivOfProduct(f, e); assert a == f * e; }
  }

  /** So different hues of the same visible saturation and value give
      different colours. */
  lemma HsvHueInjective(h1: real, h2: real, s: real, v: real)
    requires 0.0 <= h1 < 1.0 && 0.0 <= h2 < 1.0 && 0.0 < s <= 1.0 && 0.0 < v
    requires HsvToRgb(h1, s, v) == HsvToRgb(h2, s, v)
    ensures h1 == h2
  {
    HsvRecoversHue(h1, s, v);
    HsvRecoversHue(h2, s, v);
  }

  /** `HsvRecoversHue` as an implication, for use inside expressions. */
  lemma HsvRecoversHueWhen(h: real, s: real, v: real)
    ensures 0.0 <= h < 1.0 && 0.0 < s <= 1.0 && 0.0 < v ==>
              Min3(HsvToRgb(h, s, v)) < Max3(HsvToRgb(h, s, v)) && RgbToHue(HsvToRgb(h, s, v)) == h
  {
    if 0.0 <= h < 1.0 && 0.0 < s <= 1.0 && 0.0 < v {
      HsvRecoversHue(h, s, v);
    }
  }

  /** With saturation in `[0, 1]` and value in `[0, 256]` every channel is in `[0, 256]`. */
  lemma HsvInByteRange(h: real, s: real, v: real)
    requires 0.0 <= h < 1.0 && 0.0 <= s <= 1.0 && 0.0 <= v <= 256.0
    ensures var c := HsvToRgb(h, s, v);
      && 0.0 <= c.r <= 256.0 && 0.0 <= c.g <= 256.0 && 0.0 <= c.b <= 256.0
  {
    HsvChannelBounds(h, s, v);
    MulNonneg(v, 1.0 - s);
  }

  /** `v(1 - s x)` lies between `v(1 - s)` and `v` when `x` is in `[0, 1]`. */
  lemma TermBounds(s: real, x: real, v: real)
    requires 0.0 <= s <= 1.0 && 0.0 <= x <= 1.0 && 0.0 <= v
    ensures v * (1.0 - s) <= v * (1.0 - s * x) <= v
  {
    assert 0.0 <= s * x <= s * 1.0;
    assert v * (1.0 - s) <= v * (1.0 - s * x);
    assert v * (1.0 - s * x) <= v * 1.0;
  }

  /** `HsvRecoversValueAndSaturation` as an implication, for use inside expressions. */
  lemma HsvRecoversWhen(h: real, s: real, v: real)
    ensures 0.0 <= h < 1.0 && 0.0 <= s <= 1.0 && 0.0 < v ==>
              Max3(HsvToRgb(h, s, v)) == v && 1.0 - Min3(HsvToRgb(h, s, v)) / Max3(HsvToRgb(h, s, v)) == s
  {
    if 0.0 <= h < 1.0 && 0.0 <= s <= 1.0 && 0.0 < v {
      HsvRecoversValueAndSaturation(h, s, v);
    }
  }

  /** The conversion can be undone for value and saturation: the brightest
      channel is `v` and `1 - darkest/brightest` is `s`. */
  lemma HsvRecoversValueAndSaturation(h: real, s: real, v: real)
    requires 0.0 <= h < 1.0 && 0.0 <= s <= 1.0 && 0.0 < v
    ensures Max3(HsvToRgb(h, s, v)) == v
    ensures 1.0 - Min3(HsvToRgb(h, s, v)) / Max3(HsvToRgb(h, s, v)) == s
  {
    HsvChannelBounds(h, s, v);
    var c := HsvToRgb(h, s, v);
    var m := 1.0 - s;
    assert Min3(c) == v * m;
    assert v * m == m * v;
    DivOfProduct(m, v);
  }

  /** Clipping keeps out-of-range hues in the end sectors, with the fraction
      still taken from the unclipped sector: a hue of exactly 1 lands in
      sector 6, is drawn with sector 5's row, and its fraction is 0. */
  lemma HsvClipAtOne(s: real, v: real)
    ensures Sector(1.0) == 6
    ensures HsvToRgb(1.0, s, v) == Rgb(v, v * (1.0 - s), v)
  {
  }
}
