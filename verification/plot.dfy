/** The `RPlot` object: its configuration record, the constructor, the
    expression setter, panning, and `create_graph`, which samples the
    user's function on the grid and colours every sample.

    Evaluating the expression text is outside the model: the evaluated
    function is a parameter `f`.  So are the numeric primitives the code
    borrows from numpy (`abs`, `log`, `angle`, `x ** 0.3`, `pi`), gathered in
    a `Transcendentals` record about which only their ranges are assumed. */
module Plot {
  import opened Outcomes
  import opened RealMath
  import opened Viewport
  import opened Colour
  import Expression

  /** The plot configuration. `offsetX`/`offsetY` are in world units; the
      constructor receives them in pixels. */
  datatype RPlot = RPlot(
    expr: string,
    hSize: int,
    vSize: int,
    scale: real,
    nDistance: real,
    offsetX: real,
    offsetY: real,
    useLog: bool,
    useNormalization: bool)

  /** `RPlot(funktsioon, h_size, v_size, scale, n_distance, offset_x, offset_y, use_log)`.
      The text is stored as given (the constructor does not pre-process it),
      banding starts switched on, and a zero scale fails in the offset
      division. */
  function NewRPlot(funktsioon: string, hSize: int, vSize: int, scale: real, nDistance: real,
                    offsetX: real, offsetY: real, useLog: bool): (r: Result<RPlot>)
    ensures r.Fail? <==> scale == 0.0
    ensures r.Ok? ==> r.value.offsetX * scale == offsetX && r.value.offsetY * scale == offsetY
    ensures r.Ok? ==> (r.value.expr == funktsioon && r.value.scale == scale
                       && r.value.hSize == hSize && r.value.vSize == vSize && r.value.nDistance == nDistance
                       && r.value.useLog == useLog && r.value.useNormalization)
  {
    if scale == 0.0 then Fail(ZeroDivisionError)
    else
      var ox := offsetX / scale;
      var oy := offsetY / scale;
      assert ox * scale == offsetX && oy * scale == offsetY;
      Ok(RPlot(funktsioon, hSize, vSize, scale, nDistance, ox, oy, useLog, true))
  }

  /** The constructor's defaults: 800 x 600, 80 pixels per unit, bands one
      unit apart, centred on the origin, logarithm on. */
  function DefaultRPlot(funktsioon: string): Result<RPlot>
  {
    NewRPlot(funktsioon, 800, 600, 80.0, 1.0, 0.0, 0.0, true)
  }

  lemma DefaultRPlotShape(funktsioon: string)
    ensures DefaultRPlot(funktsioon).Ok?
    ensures DefaultRPlot(funktsioon).value
         == RPlot(funktsioon, 800, 600, 80.0, 1.0, 0.0, 0.0, true, true)
  {
  }

  /** `str(rplot)`: the stored expression text. */
  function Str(p: RPlot): string
  {
    p.expr
  }

  /** `rplot.function = value`: store the pre-processed text, nothing else changes. */
  function SetFunction(p: RPlot, value: string): (r: RPlot)
    ensures Str(r) == Expression.Preprocess(value)
    ensures r.(expr := p.expr) == p
  {
    p.(expr := Expression.Preprocess(value))
  }

  /** After an assignment through the setter, assigning back `str(rplot)`
      changes nothing. */
  lemma SetFunctionEcho(p: RPlot, value: string)
    ensures var q := SetFunction(p, value); SetFunction(q, Str(q)) == q
  {
    Expression.PreprocessIdempotent(value);
  }

  /** The constructor stores its text without pre-processing, so for a plot
      built from `"2i"` assigning back `str(rplot)` does change it. */
  lemma ConstructedEchoChanges()
    ensures var p := DefaultRPlot("2i").value;
            Str(SetFunction(p, Str(p))) == "2*i" && SetFunction(p, Str(p)) != p
  {
    var p := DefaultRPlot("2i").value;
    Expression.PreprocessExamples();
    assert Str(p) == "2i";
  }

  /** `set_offset_x`: pan horizontally by `offset` pixels. */
  function SetOffsetX(p: RPlot, offset: real): (r: RPlot)
    requires p.scale != 0.0
    ensures (r.offsetX - p.offsetX) * p.scale == offset
    ensures r.(offsetX := p.offsetX) == p
  {
    var dx := offset / p.scale;
    assert dx * p.scale == offset;
    p.(offsetX := p.offsetX + dx)
  }

  /** `set_offset_y`: pan vertically by `offset` pixels. */
  function SetOffsetY(p: RPlot, offset: real): (r: RPlot)
    requires p.scale != 0.0
    ensures (r.offsetY - p.offsetY) * p.scale == offset
    ensures r.(offsetY := p.offsetY) == p
  {
    var dy := offset / p.scale;
    assert dy * p.scale == offset;
    p.(offsetY := p.offsetY + dy)
  }

  /** `move(x, y)`: pan by `(x, y)` pixels; only the two offsets change. */
  function Move(p: RPlot, x: real, y: real): (r: RPlot)
    requires p.scale != 0.0
    ensures (r.offsetX - p.offsetX) * p.scale == x
    ensures (r.offsetY - p.offsetY) * p.scale == y
    ensures r.(offsetX := p.offsetX, offsetY := p.offsetY) == p
  {
    SetOffsetY(SetOffsetX(p, x), y)
  }

  /** Panning back by the same amount restores both offsets exactly. */
  lemma MoveInverse(p: RPlot, x: real, y: real)
    requires p.scale != 0.0
    ensures Move(Move(p, x, y), -x, -y) == p
  {
  }

  /** Two pans add up to one. */
  lemma MoveCompose(p: RPlot, a: real, b: real, c: real, d: real)
    requires p.scale != 0.0
    ensures Move(Move(p, a, b), c, d) == Move(p, a + c, b + d)
  {
  }

  /** The grid of a plot. */
  function PlotGrid(p: RPlot): Grid
    requires p.scale != 0.0
  {
    CreateGrid(p.hSize, p.vSize, p.scale, p.offsetX, p.offsetY)
  }

  /** Panning by `dx` pixels shows in column `c` what column `c + dx` showed
      before, and panning by `dy` shows in row `r` what row `r - dy` showed. */
  lemma MoveShiftsGrid(p: RPlot, dx: int, dy: int, r: nat, c: nat)
    requires p.scale != 0.0
    requires r < Dim(p.vSize) && c < Dim(p.hSize)
    ensures PlotGrid(Move(p, dx as real, dy as real)).xs[r][c] == WorldX(c + dx, p.hSize, p.scale, p.offsetX)
    ensures PlotGrid(Move(p, dx as real, dy as real)).ys[r][c] == WorldY(r - dy, p.vSize, p.scale, p.offsetY)
  {
    var s := p.scale;
    var hw := p.hSize as real / 2.0;
    var hh := p.vSize as real / 2.0;
    DivSub((c + dx) as real - hw, c as real - hw, s);
    DivSub(hh - (r - dy) as real, hh - r as real, s);
  }

  // ---------------------------------------------------------------------------
  // Rendering

  /** numpy's `abs`, `log`, `angle`, `x ** 0.3` and `pi`, left uninterpreted. */
  datatype Transcendentals = Transcendentals(
    abs: Complex -> real,
    log: real -> real,
    angle: Complex -> real,
    root: real -> real,
    pi: real)

  /** The only facts the model assumes of them: pi is positive and
      `x ** 0.3` maps the unit interval into itself. */
  ghost predicate Plausible(t: Transcendentals) {
    t.pi > 0.0 && forall m :: 0.0 <= m <= 1.0 ==> 0.0 <= t.root(m) <= 1.0
  }

  /** What `create_graph` needs to run without dividing by zero. */
  predicate Renderable(p: RPlot, t: Transcendentals) {
    p.scale != 0.0 && (p.useNormalization ==> p.nDistance != 0.0) && t.pi > 0.0
  }

  /** `_create_values`: the grid and the function's value at every sample. */
  function CreateValues(p: RPlot, f: Complex -> Complex): (vg: (seq<seq<Complex>>, Grid))
    requires p.scale != 0.0
    ensures vg.1 == PlotGrid(p)
    ensures Shaped(vg.0, Dim(p.vSize), Dim(p.hSize))
    ensures forall r, c :: 0 <= r < Dim(p.vSize) && 0 <= c < Dim(p.hSize) ==>
              vg.0[r][c] == f(Complex(vg.1.xs[r][c], vg.1.ys[r][c]))
  {
    var g := PlotGrid(p);
    var z := Plane(g, Dim(p.vSize), Dim(p.hSize));
    (seq(Dim(p.vSize), r requires 0 <= r < Dim(p.vSize) =>
       seq(Dim(p.hSize), c requires 0 <= c < Dim(p.hSize) => f(z[r][c]))), g)
  }

  /** The normalised magnitude `M` of one value: banded by `_compute_magnitudes`
      when normalisation is on, otherwise clipped linearly or logarithmically. */
  function Level(p: RPlot, t: Transcendentals, fz: Complex): (m: real)
    requires p.useNormalization ==> p.nDistance != 0.0
    ensures 0.0 <= m <= 1.0
    ensures !p.useNormalization && p.useLog ==> m <= 0.995
  {
    var mag := t.abs(fz);
    if p.useNormalization then
      Band(if p.useLog then t.log(mag) else mag, p.nDistance)
    else if p.useLog then LogLevel(t.log(mag))
    else LinearLevel(mag)
  }

  /** The colour of one value: hue from its phase, saturation and value from
      `M`.  All three can be read back from the colour: the hue formula
      gives the phase's hue, the brightest channel is the value, and one
      minus the ratio of darkest to brightest is the saturation (with
      banding, provided `M**0.3` is in `[0, 1]`). */
  function Shade(p: RPlot, t: Transcendentals, fz: Complex): (c: Rgb)
    requires Renderable(p, t)
    ensures !p.useNormalization ==>
              && Min3(c) < Max3(c) && RgbToHue(c) == Hue(t.angle(fz), t.pi)
              && Max3(c) == PlainValue(Level(p, t, fz))
              && 1.0 - Min3(c) / Max3(c) == PlainSaturation(Level(p, t, fz))
    ensures p.useNormalization && 0.0 <= t.root(Level(p, t, fz)) <= 1.0 ==>
              && Min3(c) < Max3(c) && RgbToHue(c) == Hue(t.angle(fz), t.pi)
              && Max3(c) == BandedValue(t.root(Level(p, t, fz)))
              && 1.0 - Min3(c) / Max3(c) == BandedSaturation(Level(p, t, fz))
  {
    var h := Hue(t.angle(fz), t.pi);
    var m := Level(p, t, fz);
    if p.useNormalization then
      var s, v := BandedSaturation(m), BandedValue(t.root(m));
      HsvRecoversWhen(h, s, v);
      HsvRecoversHueWhen(h, s, v);
      HsvToRgb(h, s, v)
    else
      var s, v := PlainSaturation(m), PlainValue(m);
      HsvRecoversWhen(h, s, v);
      HsvRecoversHueWhen(h, s, v);
      HsvToRgb(h, s, v)
  }

  /** What one render produces: the image (`get_image`) and the values with
      their grid (`get_values`). */
  datatype Graph = Graph(image: seq<seq<Rgb>>, values: seq<seq<Complex>>, grid: Grid)

  /** `create_graph`: sample, evaluate and colour every pixel. */
  function CreateGraph(p: RPlot, t: Transcendentals, f: Complex -> Complex): (g: Graph)
    requires Renderable(p, t)
    ensures Shaped(g.image, Dim(p.vSize), Dim(p.hSize))
    ensures (g.values, g.grid) == CreateValues(p, f)
    ensures forall r, c :: 0 <= r < Dim(p.vSize) && 0 <= c < Dim(p.hSize) ==>
              g.image[r][c] == Shade(p, t, g.values[r][c])
  {
    var vg := CreateValues(p, f);
    var rows, cols := Dim(p.vSize), Dim(p.hSize);
    Graph(seq(rows, r requires 0 <= r < rows =>
            seq(cols, c requires 0 <= c < cols => Shade(p, t, vg.0[r][c]))), vg.0, vg.1)
  }

  /** Every channel of a shaded pixel lies in `[0, 256]`; without banding the
      darkest possible channel is `38.4 * 0.3`, with banding `51.2 * 0.25`. */
  lemma ShadeInRange(p: RPlot, t: Transcendentals, fz: Complex)
    requires Renderable(p, t) && Plausible(t)
    ensures var c := Shade(p, t, fz);
      && 0.0 <= c.r <= 256.0 && 0.0 <= c.g <= 256.0 && 0.0 <= c.b <= 256.0
  {
    var h := Hue(t.angle(fz), t.pi);
    var m := Level(p, t, fz);
    if p.useNormalization {
      var root := t.root(m);
      assert 0.0 <= root <= 1.0;
      HsvInByteRange(h, BandedSaturation(m), BandedValue(root));
    } else {
      HsvInByteRange(h, PlainSaturation(m), PlainValue(m));
    }
  }

  /** The whole image stays within `[0, 256]` in every channel. */
  lemma CreateGraphInRange(p: RPlot, t: Transcendentals, f: Complex -> Complex, r: nat, c: nat)
    requires Renderable(p, t) && Plausible(t)
    requires r < Dim(p.vSize) && c < Dim(p.hSize)
    ensures var px := CreateGraph(p, t, f).image[r][c];
      && 0.0 <= px.r <= 256.0 && 0.0 <= px.g <= 256.0 && 0.0 <= px.b <= 256.0
  {
    var g := CreateGraph(p, t, f);
    ShadeInRange(p, t, g.values[r][c]);
  }
}
