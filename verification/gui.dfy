/** The view-state logic of the `Window` widget and its `RPlotThread` worker:
    zooming, panning by dragging, the two option flags, and the rule that a
    render's results reach the window only when it was not aborted.  Widgets,
    pixmaps and threads are outside the model; what remains is a state
    machine over an immutable `Window` record, whose every change of the plot
    ends in `CreateImage`, which starts a fresh render. */
module Gui {
  import opened Outcomes
  import opened RealMath
  import opened Viewport
  import opened Plot

  datatype Point = Point(x: int, y: int)

  /** An `RPlotThread`: the snapshot of the plot it renders, its abort flag,
      and whether it is still running. */
  datatype Worker = Worker(job: RPlot, abort: bool, running: bool)

  /** The window's state.  `shown` is what `_set_image` and `_set_values`
      last received. */
  datatype Window = Window(
    rplot: RPlot,
    wwidth: int,
    wheight: int,
    plotScale: real,
    dragging: bool,
    startcoords: Point,
    lastcoords: Point,
    worker: Option<Worker>,
    shown: Option<Graph>)

  /** What an event handler leaves behind: the window as the handler left it,
      and the exception that escaped the handler, if any.  Qt reports an
      exception escaping an event handler and goes on with the window in
      whatever state the handler had reached. */
  datatype Handled = Handled(next: Window, raised: Option<Error>)

  /** The consistency every window keeps between events: the zoom and the
      plot's own scale are positive, the plot has the window's size and a
      usable band distance, and the newest worker renders the current plot
      and has not been aborted while it runs.  The plot's scale is NOT always
      the zoom: a zoom before the first image arrives changes only the zoom
      (see `ScaleBeforeFirstImage`). */
  predicate Valid(w: Window) {
    && w.plotScale > 0.0
    && w.rplot.scale > 0.0
    && w.rplot.hSize == w.wwidth
    && w.rplot.vSize == w.wheight
    && w.rplot.nDistance != 0.0
    && (w.worker.Some? ==> w.worker.value.job == w.rplot
                           && (w.worker.value.running ==> !w.worker.value.abort))
  }

  // ---------------------------------------------------------------------------
  // Rendering

  /** `_stop_thread`: a running worker is told to abort and then waited for;
      a finished worker, or none, is left alone. */
  function StopThread(wk: Option<Worker>): (r: Option<Worker>)
    ensures r.Some? <==> wk.Some?
    ensures r.Some? ==> !r.value.running && r.value.job == wk.value.job
    ensures r.Some? ==> (r.value.abort <==> wk.value.abort || wk.value.running)
  {
    match wk
    case None => None
    case Some(t) => if t.running then Some(t.(abort := true, running := false)) else wk
  }

  /** `r` is `w` with the plot `p` installed, synced to the window's size and
      zoom, and a fresh unaborted worker running on that snapshot; nothing
      else differs.  This is what every handler that ends in `_create_image`
      leaves behind. */
  predicate StartsRender(w: Window, p: RPlot, r: Window) {
    && r.rplot == p.(hSize := w.wwidth, vSize := w.wheight, scale := w.plotScale)
    && r.worker == Some(Worker(r.rplot, false, true))
    && r.(rplot := w.rplot, worker := w.worker) == w
  }

  /** `_create_image`: copy the window size and zoom into the plot, stop the
      previous worker and start a new one on a snapshot of the plot.  The
      window keeps only the new worker: the previous one, stopped by
      `StopThread`, has its abort flag set and so emits nothing
      (`SupersededNeverEmits`). */
  function CreateImage(w: Window): (r: Window)
    ensures r.rplot.hSize == w.wwidth && r.rplot.vSize == w.wheight && r.rplot.scale == w.plotScale
    ensures r.rplot.(hSize := w.rplot.hSize, vSize := w.rplot.vSize, scale := w.rplot.scale) == w.rplot
    ensures StartsRender(w, w.rplot, r)
  {
    var p := w.rplot.(hSize := w.wwidth, vSize := w.wheight, scale := w.plotScale);
    w.(rplot := p, worker := Some(Worker(p, false, true)))
  }

  /** A second `_create_image` straight after the first renders the same
      snapshot again: the window ends up in the same state. */
  lemma CreateImageIdempotent(w: Window)
    ensures CreateImage(CreateImage(w)) == CreateImage(w)
  {
  }

  /** What evaluating an expression text yields: the function it denotes,
      or `None` when `eval` raises on it (a syntax error, an unknown name, a
      division by zero), which makes `create_graph` raise. */
  type Evaluator = string -> Option<Complex -> Complex>

  /** `RPlotThread.run`: render the snapshot, then emit image and values
      together only if the worker was not aborted meanwhile.  When the
      rendering raises, `run` ends there and emits nothing. */
  function Run(wk: Worker, t: Transcendentals, ev: Evaluator): (out: Option<Graph>)
    requires Renderable(wk.job, t)
    ensures out.Some? <==> !wk.abort && ev(wk.job.expr).Some?
    ensures out.Some? ==> out.value == CreateGraph(wk.job, t, ev(wk.job.expr).value)
  {
    match ev(wk.job.expr)
    case None => None
    case Some(f) =>
      var g := CreateGraph(wk.job, t, f);
      if wk.abort then None else Some(g)
  }

  /** The current worker finishes; what it emits becomes the shown result.
      An aborted worker, or one whose rendering raised, leaves the shown
      result as it was, and nothing but the worker and the shown result ever
      changes. */
  function WorkerFinished(w: Window, t: Transcendentals, ev: Evaluator): (r: Window)
    requires w.worker.Some? && w.worker.value.running ==> Renderable(w.worker.value.job, t)
    ensures !(w.worker.Some? && w.worker.value.running) ==> r == w
    ensures w.worker.Some? && w.worker.value.running ==>
              && r.worker == Some(w.worker.value.(running := false))
              && r.shown == (if w.worker.value.abort || ev(w.worker.value.job.expr).None? then w.shown
                             else Some(CreateGraph(w.worker.value.job, t, ev(w.worker.value.job.expr).value)))
    ensures r.(worker := w.worker, shown := w.shown) == w
  {
    match w.worker
    case Some(wk) =>
      if wk.running then
        var out := Run(wk, t, ev);
        w.(worker := Some(wk.(running := false)), shown := if out.Some? then out else w.shown)
      else w
    case None => w
  }

  /** A render that a newer one superseded never reaches the window. */
  lemma SupersededNeverEmits(wk: Worker, t: Transcendentals, ev: Evaluator)
    requires wk.running && Renderable(wk.job, t)
    ensures Run(StopThread(Some(wk)).value, t, ev) == None
  {
  }

  /** Requesting render A and then render B before A finishes: A is stopped
      without emitting, and when B finishes the window shows B's result,
      which is the plot as it is now, if its expression evaluates, and
      otherwise what it showed before. */
  lemma OnlyNewestRenderShown(w: Window, t: Transcendentals, ev: Evaluator)
    requires Valid(w) && t.pi > 0.0
    ensures var a := CreateImage(w);
            var b := CreateImage(a);
            && Run(StopThread(a.worker).value, t, ev) == None
            && WorkerFinished(b, t, ev).shown == (match ev(b.rplot.expr)
                                                  case Some(f) => Some(CreateGraph(b.rplot, t, f))
                                                  case None => w.shown)
  {
  }

  // ---------------------------------------------------------------------------
  // Zoom

  /** `int(amount)/1000 + 1` with Python 3 true division. */
  function ZoomFactor(delta: int): (a: real)
    ensures delta > 0 ==> a > 1.0
    ensures -1000 < delta < 0 ==> 0.0 < a < 1.0
    ensures a == 0.0 <==> delta == -1000
    ensures -2000 < delta < -1000 ==> -1.0 < a < 0.0
    ensures delta == -2000 ==> a == -1.0
    ensures delta < -2000 ==> a < -1.0
  {
    delta as real / 1000.0 + 1.0
  }

  /** The new `_plot_scale` after a wheel turn of `delta`: multiplied by the
      factor when it is positive, by the reciprocal of its magnitude
      otherwise; a factor of exactly zero divides by zero. */
  function ZoomedScale(scale: real, delta: int): (r: Result<real>)
    ensures r.Fail? <==> delta == -1000
    ensures r.Ok? && scale > 0.0 ==> r.value > 0.0
    ensures r.Ok? && delta > -1000 ==> r.value == scale * ZoomFactor(delta)
    ensures r.Ok? && delta < -1000 ==> r.value * -ZoomFactor(delta) == scale
  {
    var a := ZoomFactor(delta);
    if a > 0.0 then Ok(scale * a)
    else if a == 0.0 then Fail(ZeroDivisionError)
    else
      var k := 1.0 / Abs(a);
      assert k * Abs(a) == 1.0;
      assert scale * k * -a == scale * (k * -a);
      Ok(scale * k)
  }

  /** Zooming in grows the scale, zooming out shrinks it, and a negative
      factor between -1 and 0 also grows it. */
  lemma ZoomDirection(scale: real, delta: int)
    requires scale > 0.0 && delta != -1000
    ensures delta > 0 ==> ZoomedScale(scale, delta).value > scale
    ensures -1000 < delta < 0 ==> ZoomedScale(scale, delta).value < scale
    ensures delta == 0 || delta == -2000 ==> ZoomedScale(scale, delta).value == scale
    ensures -2000 < delta < -1000 ==> ZoomedScale(scale, delta).value > scale
    ensures delta < -2000 ==> ZoomedScale(scale, delta).value < scale
  {
  }

  /** `_scale(amount)`: `_plot_scale` changes first; then the label's pixmap
      is rescaled, and only after that does a render start.  Before the first
      image arrives the label has no pixmap, `pixmap()` gives `None`, and the
      rescaling raises `AttributeError` with the new zoom already stored and
      no render started.  A factor of zero raises before anything changes. */
  function Scale(w: Window, amount: int): (r: Handled)
    ensures r.raised == Some(ZeroDivisionError) <==> amount == -1000
    ensures r.raised == Some(AttributeError) <==> amount != -1000 && w.shown.None?
    ensures amount == -1000 ==> r.next == w
    ensures amount != -1000 ==> r.next.plotScale == ZoomedScale(w.plotScale, amount).value
    ensures amount != -1000 && w.shown.None? ==> r.next == w.(plotScale := r.next.plotScale)
    ensures amount != -1000 && w.shown.Some? ==>
              r.raised == None && StartsRender(w.(plotScale := r.next.plotScale), w.rplot, r.next)
  {
    match ZoomedScale(w.plotScale, amount)
    case Fail(e) => Handled(w, Some(e))
    case Ok(s) =>
      if w.shown.None? then Handled(w.(plotScale := s), Some(AttributeError))
      else Handled(CreateImage(w.(plotScale := s)), None)
  }

  /** A zoom before the first image keeps the plot at its old scale, so a
      drag released afterwards pans by the old scale until some later render
      copies the new zoom into the plot. */
  lemma ScaleBeforeFirstImage(w: Window, amount: int)
    requires Valid(w) && w.shown.None? && amount != -1000 && amount != 0 && amount != -2000
    ensures Scale(w, amount).next.rplot == w.rplot
    ensures Scale(w, amount).next.plotScale != w.plotScale
  {
    ZoomDirection(w.plotScale, amount);
  }

  // ---------------------------------------------------------------------------
  // Flags

  /** `_toggle_log`: flip the logarithm flag, then render. */
  function ToggleLog(w: Window): (r: Window)
    ensures r.rplot.useLog == !w.rplot.useLog
    ensures r.rplot.useNormalization == w.rplot.useNormalization
    ensures StartsRender(w, w.rplot.(useLog := !w.rplot.useLog), r)
  {
    CreateImage(w.(rplot := w.rplot.(useLog := !w.rplot.useLog)))
  }

  /** `_toggle_norm`: flip the banding flag, then render. */
  function ToggleNorm(w: Window): (r: Window)
    ensures r.rplot.useNormalization == !w.rplot.useNormalization
    ensures r.rplot.useLog == w.rplot.useLog
    ensures StartsRender(w, w.rplot.(useNormalization := !w.rplot.useNormalization), r)
  {
    CreateImage(w.(rplot := w.rplot.(useNormalization := !w.rplot.useNormalization)))
  }

  /** `set_use_log(use)`: set the flag, render, and return its previous value. */
  function SetUseLog(w: Window, use: bool): (res: (Window, bool))
    ensures res.1 == w.rplot.useLog
    ensures res.0.rplot.useLog == use
    ensures res.0.rplot.useNormalization == w.rplot.useNormalization
    ensures StartsRender(w, w.rplot.(useLog := use), res.0)
  {
    var pv := w.rplot.useLog;
    (CreateImage(w.(rplot := w.rplot.(useLog := use))), pv)
  }

  /** `set_use_normalization(use)`: set the flag, render, and return its previous value. */
  function SetUseNormalization(w: Window, use: bool): (res: (Window, bool))
    ensures res.1 == w.rplot.useNormalization
    ensures res.0.rplot.useNormalization == use
    ensures res.0.rplot.useLog == w.rplot.useLog
    ensures StartsRender(w, w.rplot.(useNormalization := use), res.0)
  {
    var pv := w.rplot.useNormalization;
    (CreateImage(w.(rplot := w.rplot.(useNormalization := use))), pv)
  }

  /** Toggling twice restores both flags; setting a flag to its returned
      previous value restores it too. */
  lemma FlagRoundTrips(w: Window, use: bool)
    ensures ToggleLog(ToggleLog(w)).rplot.useLog == w.rplot.useLog
    ensures ToggleNorm(ToggleNorm(w)).rplot.useNormalization == w.rplot.useNormalization
    ensures var (w1, pv) := SetUseLog(w, use); SetUseLog(w1, pv).0.rplot.useLog == w.rplot.useLog
    ensures var (w1, pv) := SetUseNormalization(w, use);
            SetUseNormalization(w1, pv).0.rplot.useNormalization == w.rplot.useNormalization
  {
  }

  /** `set_function(text)`: pre-process and store the text, then render.
      Only the text changes in the plot. */
  function SetFunctionText(w: Window, text: string): (r: Window)
    ensures Str(r.rplot) == Expression.Preprocess(text)
    ensures StartsRender(w, w.rplot.(expr := Str(r.rplot)), r)
  {
    CreateImage(w.(rplot := SetFunction(w.rplot, text)))
  }

  /** When `set_function` is called with a text the text box does not show,
      it writes the text into the box, whose `textChanged` signal calls
      `set_function` again with the same text.  That second call changes
      nothing further. */
  lemma SetFunctionTextEcho(w: Window, text: string)
    ensures SetFunctionText(SetFunctionText(w, text), text) == SetFunctionText(w, text)
  {
  }

  // ---------------------------------------------------------------------------
  // Keys and mouse

  datatype Key = PageUp | PageDown | F1 | F2 | OtherKey(code: int)

  /** `keyPressEvent`: PageUp and PageDown zoom by a wheel step of 200 either
      way, F1 and F2 toggle the flags, any other key is ignored. */
  function KeyPress(w: Window, key: Key): (r: Handled)
    ensures key == PageUp ==> r == Scale(w, 200) && r.next.plotScale == w.plotScale * 1.2
    ensures key == PageDown ==> r == Scale(w, -200) && r.next.plotScale == w.plotScale * 0.8
    ensures key == F1 ==> r == Handled(ToggleLog(w), None) && r.next.plotScale == w.plotScale
    ensures key == F2 ==> r == Handled(ToggleNorm(w), None) && r.next.plotScale == w.plotScale
    ensures key.OtherKey? ==> r == Handled(w, None)
  {
    match key
    case PageUp => Scale(w, 200)
    case PageDown => Scale(w, -200)
    case F1 => Handled(ToggleLog(w), None)
    case F2 => Handled(ToggleNorm(w), None)
    case OtherKey(_) => Handled(w, None)
  }

  /** `mousePressEvent`: start a drag unless one is in progress. */
  function MousePress(w: Window, x: int, y: int): (r: Window)
    ensures r.dragging
    ensures !w.dragging ==> r.startcoords == Point(x, y) && r.lastcoords == Point(x, y)
    ensures w.dragging ==> r == w
    ensures r.(dragging := w.dragging, startcoords := w.startcoords, lastcoords := w.lastcoords) == w
  {
    if !w.dragging then w.(dragging := true, startcoords := Point(x, y), lastcoords := Point(x, y))
    else w
  }

  /** `mouseReleaseEvent`: end a drag, pan the plot by the drag vector
      (x reversed, y as is, because world y grows upwards), then render.
      Without a drag nothing happens. */
  function MouseRelease(w: Window, x: int, y: int): (r: Window)
    requires w.rplot.scale != 0.0
    ensures !r.dragging
    ensures !w.dragging ==> r == w
    ensures w.dragging ==> StartsRender(w.(dragging := false),
                                        Move(w.rplot, (w.startcoords.x - x) as real, (y - w.startcoords.y) as real), r)
  {
    if w.dragging then
      var moved := Move(w.rplot, (w.startcoords.x - x) as real, (y - w.startcoords.y) as real);
      CreateImage(w.(dragging := false, rplot := moved))
    else w
  }

  /** A drag from `(x0, y0)` to `(x1, y1)` pans the plot by `(x0 - x1, y1 - y0)` pixels. */
  /** The pan is measured with the plot's own scale, and only afterwards does
      the render copy the zoom into the plot. */
  lemma DragPans(w: Window, x0: int, y0: int, x1: int, y1: int)
    requires Valid(w) && !w.dragging
    ensures MouseRelease(MousePress(w, x0, y0), x1, y1).rplot
         == Move(w.rplot, (x0 - x1) as real, (y1 - y0) as real).(scale := w.plotScale)
  {
  }

  /** Dragging from `a` to `b` and then from `b` back to `a` restores the view
      whenever the plot's scale is the zoom; either way the plot ends up at
      the zoom. */
  lemma DragBackRestores(w: Window, a: Point, b: Point)
    requires Valid(w) && !w.dragging
    ensures var w1 := MouseRelease(MousePress(w, a.x, a.y), b.x, b.y);
            var w2 := MouseRelease(MousePress(w1, b.x, b.y), a.x, a.y);
            && w2.rplot.scale == w.plotScale
            && (w.rplot.scale == w.plotScale ==> w2.rplot == w.rplot)
  {
  }

  /** After a zoom before the first image, a horizontal drag there and back
      does not return: the first pan is measured at the old scale, the second
      at the new one. */
  lemma StaleDragDrifts(w: Window, a: Point, b: Point)
    requires Valid(w) && !w.dragging && w.rplot.scale != w.plotScale && a.x != b.x
    ensures var w1 := MouseRelease(MousePress(w, a.x, a.y), b.x, b.y);
            var w2 := MouseRelease(MousePress(w1, b.x, b.y), a.x, a.y);
            w2.rplot.offsetX != w.rplot.offsetX
  {
    var d := (a.x - b.x) as real;
    var s0, s1 := w.rplot.scale, w.plotScale;
    var w1 := MouseRelease(MousePress(w, a.x, a.y), b.x, b.y);
    var w2 := MouseRelease(MousePress(w1, b.x, b.y), a.x, a.y);
    var e := w1.rplot.offsetX - w.rplot.offsetX;
    var g := w2.rplot.offsetX - w1.rplot.offsetX;
    assert e * s0 == d && g * s1 == -d;
    assert (e + g) * (s0 * s1) == e * s0 * s1 + g * s1 * s0;
    assert (e + g) * (s0 * s1) == d * (s1 - s0);
    MulNonzero(d, s1 - s0);
  }

  // ---------------------------------------------------------------------------
  // The window as a state machine

  /** `Window(rplot, width, height)`: take over the plot's scale, start with
      no drag, no worker and nothing shown, and render. */
  function NewWindow(rplot: RPlot, width: int, height: int): (w: Window)
    ensures w.rplot.hSize == width && w.rplot.vSize == height && w.plotScale == rplot.scale
    ensures !w.dragging && w.shown == None
    ensures StartsRender(Window(rplot, width, height, rplot.scale, false, Point(0, 0), Point(0, 0), None, None),
                         rplot, w)
  {
    CreateImage(Window(rplot, width, height, rplot.scale, false, Point(0, 0), Point(0, 0), None, None))
  }

  lemma NewWindowValid(rplot: RPlot, width: int, height: int)
    requires rplot.scale > 0.0 && rplot.nDistance != 0.0
    ensures Valid(NewWindow(rplot, width, height))
  {
  }

  datatype Event =
    | Wheel(delta: int)
    | KeyDown(key: Key)
    | Press(px: int, py: int)
    | Release(rx: int, ry: int)
    | LogClicked
    | NormClicked
    | SetLog(useLog: bool)
    | SetNorm(useNorm: bool)
    | TextChanged(text: string)
    | WorkerDone

  /** Does the handler for `e` end in `_create_image`?  A press, a finished
      worker, an unbound key and a release without a drag do not. */
  predicate Renders(w: Window, e: Event) {
    match e
    case Press(_, _) => false
    case WorkerDone => false
    case Release(_, _) => w.dragging
    case KeyDown(k) => !k.OtherKey?
    case _ => true
  }

  /** Does the event zoom, through the wheel or PageUp/PageDown? */
  predicate Zooms(e: Event) {
    e.Wheel? || e == KeyDown(PageUp) || e == KeyDown(PageDown)
  }

  /** One event handled by the window: the wheel (`wheelEvent`), a key, the
      mouse, a click on either check box (`clicked`), the two public flag
      setters, an edit of the text box (`_text_changed`), or the newest
      worker finishing.  Only a zoom can raise; only a finished worker
      changes what is shown, and once an image is shown one stays shown. */
  function Step(w: Window, e: Event, t: Transcendentals, ev: Evaluator): (r: Handled)
    requires Valid(w) && t.pi > 0.0
    ensures r.raised == Some(ZeroDivisionError) <==> e == Wheel(-1000)
    ensures r.raised == Some(AttributeError) <==> Zooms(e) && e != Wheel(-1000) && w.shown.None?
    ensures !e.WorkerDone? ==> r.next.shown == w.shown
    ensures w.shown.Some? ==> r.next.shown.Some?
    ensures !Renders(w, e) ==> r.next.rplot == w.rplot
  {
    match e
    case Wheel(d) => Scale(w, d)
    case KeyDown(k) => KeyPress(w, k)
    case Press(x, y) => Handled(MousePress(w, x, y), None)
    case Release(x, y) => Handled(MouseRelease(w, x, y), None)
    case LogClicked => Handled(ToggleLog(w), None)
    case NormClicked => Handled(ToggleNorm(w), None)
    case SetLog(b) => Handled(SetUseLog(w, b).0, None)
    case SetNorm(b) => Handled(SetUseNormalization(w, b).0, None)
    case TextChanged(s) => Handled(SetFunctionText(w, s), None)
    case WorkerDone => Handled(WorkerFinished(w, t, ev), None)
  }

  /** Every event keeps the window consistent, whether or not its handler
      raised. */
  lemma StepPreservesValid(w: Window, e: Event, t: Transcendentals, ev: Evaluator)
    requires Valid(w) && t.pi > 0.0
    ensures Valid(Step(w, e, t, ev).next)
  {
  }

  /** Every handler that renders, unless it is a zoom that raises, leaves
      the plot's scale equal to the zoom and a fresh worker on the current
      plot. */
  lemma RenderSyncsScale(w: Window, e: Event, t: Transcendentals, ev: Evaluator)
    requires Valid(w) && t.pi > 0.0
    requires Renders(w, e) && e != Wheel(-1000) && !(Zooms(e) && w.shown.None?)
    ensures var n := Step(w, e, t, ev).next;
            n.rplot.scale == n.plotScale && n.worker == Some(Worker(n.rplot, false, true))
  {
  }

  /** When the newest worker finishes and the plot's expression evaluates,
      the window shows the render of the plot exactly as the window holds
      it. */
  lemma FinishedShowsCurrentPlot(w: Window, t: Transcendentals, ev: Evaluator)
    requires Valid(w) && t.pi > 0.0
    requires w.worker.Some? && w.worker.value.running && ev(w.rplot.expr).Some?
    ensures WorkerFinished(w, t, ev).shown == Some(CreateGraph(w.rplot, t, ev(w.rplot.expr).value))
  {
  }

  /** When the plot's expression does not evaluate, the finishing worker
      emits nothing: the previous image and values stay shown, and only the
      worker is marked finished. */
  lemma FailedRenderKeepsImage(w: Window, t: Transcendentals, ev: Evaluator)
    requires Valid(w) && t.pi > 0.0
    requires w.worker.Some? && w.worker.value.running && ev(w.rplot.expr).None?
    ensures WorkerFinished(w, t, ev) == w.(worker := Some(w.worker.value.(running := false)))
  {
  }
}
