/** The sample grid of `RPlot._create_values`: pixel column `c` and row `r` of
    an image `w` wide and `h` high are sent to the world point
    `((c - w/2)/scale + ox, (h/2 - r)/scale + oy)`.  Python 3 true division is
    assumed for `w/2` and `h/2`, so both halves are exact reals. */
module Viewport {
  import opened RealMath

  datatype Complex = Complex(re: real, im: real)

  /** Number of samples `np.mgrid[0:n]` produces along one axis: none when
      `n` is not positive. */
  function Dim(n: int): nat
  {
    if n < 0 then 0 else n
  }

  /** A `rows x cols` array. */
  predicate Shaped<T>(a: seq<seq<T>>, rows: nat, cols: nat) {
    |a| == rows && forall r :: 0 <= r < rows ==> |a[r]| == cols
  }

  /** The two coordinate arrays `_b_grid = [_x, _y]`. */
  datatype Grid = Grid(xs: seq<seq<real>>, ys: seq<seq<real>>)

  /** World abscissa of pixel column `c`. */
  function WorldX(c: int, w: int, scale: real, ox: real): real
    requires scale != 0.0
  {
    (c as real - w as real / 2.0) / scale + ox
  }

  /** World ordinate of pixel row `r`; rows grow downwards, so the ordinate shrinks. */
  function WorldY(r: int, h: int, scale: real, oy: real): real
    requires scale != 0.0
  {
    (h as real / 2.0 - r as real) / scale + oy
  }

  /** The grid for a `w x h` image at `scale` pixels per unit, centred on `(ox, oy)`. */
  function CreateGrid(w: int, h: int, scale: real, ox: real, oy: real): (g: Grid)
    requires scale != 0.0
    ensures Shaped(g.xs, Dim(h), Dim(w)) && Shaped(g.ys, Dim(h), Dim(w))
  {
    Grid(seq(Dim(h), r => seq(Dim(w), c => WorldX(c, w, scale, ox))),
         seq(Dim(h), r => seq(Dim(w), c => WorldY(r, h, scale, oy))))
  }

  /** The complex sample points `z = _x + _y*1j`. */
  function Plane(g: Grid, rows: nat, cols: nat): (z: seq<seq<Complex>>)
    requires Shaped(g.xs, rows, cols) && Shaped(g.ys, rows, cols)
    ensures Shaped(z, rows, cols)
    ensures forall r, c :: 0 <= r < rows && 0 <= c < cols ==>
              z[r][c].re == g.xs[r][c] && z[r][c].im == g.ys[r][c]
  {
    seq(rows, r requires 0 <= r < rows => seq(cols, c requires 0 <= c < cols => Complex(g.xs[r][c], g.ys[r][c])))
  }

  /** The abscissa depends on the column only and the ordinate on the row only. */
  lemma GridSeparable(w: int, h: int, scale: real, ox: real, oy: real, r1: nat, r2: nat, c1: nat, c2: nat)
    requires scale != 0.0
    requires r1 < Dim(h) && r2 < Dim(h) && c1 < Dim(w) && c2 < Dim(w)
    ensures CreateGrid(w, h, scale, ox, oy).xs[r1][c1] == CreateGrid(w, h, scale, ox, oy).xs[r2][c1]
    ensures CreateGrid(w, h, scale, ox, oy).ys[r1][c1] == CreateGrid(w, h, scale, ox, oy).ys[r1][c2]
  {
  }

  /** Neighbouring columns are exactly `1/scale` apart in x. */
  lemma GridColumnSpacing(w: int, h: int, scale: real, ox: real, oy: real, r: nat, c: nat)
    requires scale != 0.0
    requires r < Dim(h) && c + 1 < Dim(w)
    ensures CreateGrid(w, h, scale, ox, oy).xs[r][c + 1] - CreateGrid(w, h, scale, ox, oy).xs[r][c] == 1.0 / scale
  {
    var hw := w as real / 2.0;
    DivSub((c + 1) as real - hw, c as real - hw, scale);
  }

  /** Neighbouring rows are exactly `-1/scale` apart in y. */
  lemma GridRowSpacing(w: int, h: int, scale: real, ox: real, oy: real, r: nat, c: nat)
    requires scale != 0.0
    requires r + 1 < Dim(h) && c < Dim(w)
    ensures CreateGrid(w, h, scale, ox, oy).ys[r + 1][c] - CreateGrid(w, h, scale, ox, oy).ys[r][c] == -1.0 / scale
  {
    var hh := h as real / 2.0;
    DivSub(hh - (r + 1) as real, hh - r as real, scale);
  }

  /** With a positive scale x grows to the right and y grows upwards: row 0
      holds the largest ordinate. */
  lemma GridOrientation(w: int, h: int, scale: real, ox: real, oy: real, r1: nat, r2: nat, c1: nat, c2: nat)
    requires scale > 0.0
    requires r1 < r2 < Dim(h) && c1 < c2 < Dim(w)
    ensures CreateGrid(w, h, scale, ox, oy).xs[r1][c1] < CreateGrid(w, h, scale, ox, oy).xs[r1][c2]
    ensures CreateGrid(w, h, scale, ox, oy).ys[r1][c1] > CreateGrid(w, h, scale, ox, oy).ys[r2][c1]
  {
    var hw := w as real / 2.0;
    var hh := h as real / 2.0;
    DivStrictMono(c1 as real - hw, c2 as real - hw, scale);
    DivStrictMono(hh - r2 as real, hh - r1 as real, scale);
  }

  /** The grid is reversible: a sample's world coordinates give back its pixel. */
  lemma GridInverse(w: int, h: int, scale: real, ox: real, oy: real, r: nat, c: nat)
    requires scale != 0.0
    requires r < Dim(h) && c < Dim(w)
    ensures (CreateGrid(w, h, scale, ox, oy).xs[r][c] - ox) * scale + w as real / 2.0 == c as real
    ensures h as real / 2.0 - (CreateGrid(w, h, scale, ox, oy).ys[r][c] - oy) * scale == r as real
  {
  }

  /** The centre pixel of an even-sized image sits exactly on the offset. */
  lemma GridCentre(w: int, h: int, scale: real, ox: real, oy: real)
    requires scale != 0.0
    requires w > 0 && h > 0 && w % 2 == 0 && h % 2 == 0
    ensures CreateGrid(w, h, scale, ox, oy).xs[h / 2][w / 2] == ox
    ensures CreateGrid(w, h, scale, ox, oy).ys[h / 2][w / 2] == oy
  {
  }

  /** A 200 x 200 image at 100 pixels per unit: pixel (150, 100) is the point 0.5 + 0i. */
  lemma GridExample()
    ensures CreateGrid(200, 200, 100.0, 0.0, 0.0).xs[100][150] == 0.5
    ensures CreateGrid(200, 200, 100.0, 0.0, 0.0).ys[100][150] == 0.0
  {
  }
}
