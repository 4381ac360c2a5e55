# RPlot, modelled in Dafny

RPlot draws a complex function `f` over a rectangle of the complex plane by
domain colouring. The phase of `f(z)` gives the hue. The magnitude, normalised
into `[0, 1]`, gives the saturation and the value. This project models the
computational core of `rplot.py` and the view-state logic of `gui.py` as pure
functions over exact reals and strings, and proves what they promise.

- `outcomes.dfy` (`Outcomes`): the `Result` and `Option` types, and the two
  errors the modelled code raises on its own: Python's `ZeroDivisionError`
  and the `AttributeError` of a zoom before the first image.
- `real_math.dfy` (`RealMath`): Python's float `%` (floor-mod), `astype(int)`
  (truncation toward zero), `np.clip`, and integer powers, on exact reals.
- `expression.dfy` (`Expression`): the pre-processor in the `function` setter.
  It inserts `*` before an `i` that follows a digit. It also has a second,
  local description of the same rewrite, used to prove idempotence.
- `viewport.dfy` (`Viewport`): the sample grid of `_create_values` and the
  complex points `z = x + iy`.
- `colour.dfy` (`Colour`): the banded and unbanded magnitude normalisers, the
  hue, saturation and value formulas, and `hsv_to_rgb`.
- `plot.dfy` (`Plot`): the `RPlot` record, its constructor, `__str__`, the
  expression setter, panning (`set_offset_x`, `set_offset_y`, `move`) and
  `create_graph`.
- `gui.py`'s window is modelled in `gui.dfy` (`Gui`) as a state machine over an
  immutable `Window` record. It covers zoom, keys, drag, the flags, the sync
  before every render, stopping the previous worker, and emitting a result
  only when the render was not aborted and did not raise.

Assumptions made by the model:

- Python 3 true division is assumed everywhere `/` occurs, in particular for
  `h_size/2` (rplot.py:124) and `int(amount)/1000` (gui.py:165). Both are exact
  reals.
- Evaluating the expression text is not modelled. It is a parameter
  `ev: string -> Option<Complex -> Complex>` (`Gui.Evaluator`). `ev` gives the
  function the text denotes, or `None` when `eval` raises on the text: a
  `SyntaxError`, a `NameError` or a `ZeroDivisionError`. The raise happens in
  `create_graph` inside the worker's `run` (gui.py:292, rplot.py:109). `run`
  then ends without emitting, so the window keeps its previous image
  (`Gui.FailedRenderKeepsImage`).
- numpy's `abs`, `log`, `angle`, `x ** 0.3` and `pi` are fields of a
  `Transcendentals` record. Only two facts about them are assumed
  (`Plausible`): `pi > 0`, and `x ** 0.3` maps `[0, 1]` into `[0, 1]`.
- A zero scale raises in the constructor (`offset_x/self.scale`), so the
  constructor returns `Fail(ZeroDivisionError)`. The pan and render functions
  require a non-zero scale. The window keeps its zoom and its plot's scale
  positive (`Gui.Valid`, preserved by every event).
- Before the first result arrives the image label has no pixmap, and
  PySide's `QLabel.pixmap()` returns `None` then. An exception that escapes a
  Qt event handler is reported, and the window goes on in the state the
  handler left. `Gui.Handled` records both the state and the exception.

The model follows the code as written, including these details:

- The setter reads `value[l-1]`, which wraps to the last character when
  `l = 0`. So `"i2"` becomes `"*i2"`. The quirk is kept
  (`Expression.PreprocessExamples`).
- The constructor stores the expression text as given. Only the setter
  pre-processes it, so assigning `str(rplot)` back to a freshly constructed
  plot can change it (`Plot.ConstructedEchoChanges`).
- `_scale` stores the new zoom, then rescales the label's pixmap, and only
  then renders. A zoom before the first image raises in the rescaling, so
  the plot keeps its old scale until the next render. A drag released in
  that state pans at the old scale (`Gui.ScaleBeforeFirstImage`,
  `Gui.StaleDragDrifts`).
- The HSV sector is `trunc(h*6)`, clipped to `0..5` by `choose(mode="clip")`.
  It is not `floor(h*6) mod 6`. The fraction comes from the unclipped sector,
  so a hue of exactly 1 is drawn with sector 5's row and fraction 0
  (`Colour.HsvClipAtOne`).
- The constructor receives the offsets in pixels and stores them divided by
  the scale.

## Model

| member | source | states |
|---|---|---|
| Expression.FunctionSetter | rplot.py:111-119 | The setter's loop, run over every position with the wrapping `value[l-1]` test, produces exactly `Preprocess(value)`. Its length is the input length plus the number of inserted `*`. |
| Expression.PreprocessOnlyInsertsStars | rplot.py:113-119 | Deleting every `*` from the output and from the input gives the same text. Where the stars sit is stated by `PreprocessPositions`. |
| Expression.PreprocessPositions | rplot.py:113-119 | Input character l sits at output position `l + StarCount(s, l+1)`. The position before it holds the `*` inserted for it when it needs one, and otherwise the image of input character l-1. |
| Expression.ExpandLength | rplot.py:114-117 | After the first `n` positions the output has exactly `n` characters plus one per `*` inserted so far. |
| Expression.ExpandIsLocal | rplot.py:115 | The position-by-position rewrite equals a front-to-back rewrite in which each character looks only at its predecessor, and the first character looks at the last one. |
| Expression.RewriteAfterStable | rplot.py:115-117 | Running the local rewrite a second time from the same predecessor inserts nothing. |
| Expression.PreprocessIdempotent | rplot.py:113-119 | Pre-processing twice gives the same text as pre-processing once. |
| Expression.PreprocessExamples | rplot.py:113-119 | `"2i"` becomes `"2*i"`, `"sin(2i)"` becomes `"sin(2*i)"`, `"pi"`, `"sin(z)"` and `""` are unchanged, and by the wrap-around `"i2"` becomes `"*i2"`. |
| Viewport.CreateGrid | rplot.py:124-134 | Both coordinate arrays have `v_size` rows of `h_size` samples. A non-positive size gives an empty axis, as `np.mgrid` does. |
| Viewport.Plane | rplot.py:135 | The sample point at row r, column c has real part `X[r][c]` and imaginary part `Y[r][c]`. |
| Viewport.GridSeparable | rplot.py:126-132 | X does not depend on the row and Y does not depend on the column. |
| Viewport.GridColumnSpacing | rplot.py:128 | Adjacent columns differ in X by exactly `1/scale`. |
| Viewport.GridRowSpacing | rplot.py:129 | Adjacent rows differ in Y by exactly `-1/scale`. |
| Viewport.GridOrientation | rplot.py:128-129 | With a positive scale X increases to the right and Y decreases downwards, so row 0 holds the largest Y. |
| Viewport.GridInverse | rplot.py:124-132 | The grid is reversible: `(X - ox)*scale + w/2` gives back the column and `h/2 - (Y - oy)*scale` gives back the row. |
| Viewport.GridCentre | rplot.py:124-132 | For even sizes the centre pixel `(w/2, h/2)` sits exactly on the offset `(ox, oy)`. |
| Viewport.GridExample | rplot.py:124-132 | For a 200 x 200 image, scale 100 and zero offset, pixel (c=150, r=100) is the point (0.5, 0). |
| RealMath.FloorModRange | rplot.py:153 | Python's `%` with a positive divisor d gives a value in `[0, d)` that differs from the dividend by a whole number of periods. |
| RealMath.FloorModPeriodic | rplot.py:153 | Adding one period to the dividend leaves Python's `%` unchanged. |
| RealMath.FloorModZero | rplot.py:153 | `a % d` is 0 exactly when a is a whole multiple of d. |
| RealMath.FloorModHalf | rplot.py:153 | `a % d` is `d/2` exactly when a is an odd multiple of `d/2`. |
| RealMath.Trunc | rplot.py:91 | `astype(int)` truncates toward zero: a non-negative x gives n with n ≤ x < n+1, and a negative x gives n with n-1 < x ≤ n. |
| RealMath.PowUnit | rplot.py:168 | Any natural power of a number in `[0, 1]` stays in `[0, 1]`. |
| RealMath.PowMono | rplot.py:168 | Natural powers preserve order on the non-negative reals. |
| Colour.BandPosition | rplot.py:153 | `(v % d)/d` lies in `[0, 1)` for every non-zero d and equals the fractional part of `v/d`. |
| Colour.Band | rplot.py:153-155 | The banded normaliser `abs(nv - .5)*2` lies in `[0, 1]`. |
| Colour.BandPeriodic | rplot.py:153-155 | The banded normaliser repeats with period `n_distance`. |
| Colour.BandEven | rplot.py:153-155 | The banded normaliser gives the same value at m and at -m. |
| Colour.BandPeak | rplot.py:153-155 | For `n_distance` d > 0 the banded normaliser is 1 exactly at whole multiples of d. |
| Colour.BandTrough | rplot.py:153-155 | For `n_distance` d > 0 the banded normaliser is 0 exactly at odd multiples of `d/2`. |
| Colour.LinearLevel | rplot.py:174 | `1 - clip(abs(F), 0, 1)` lies in `[0, 1]`. It is 0 exactly when `abs(F) ≥ 1`, and it is `1 - abs(F)` when `abs(F)` is in `[0, 1)`. |
| Colour.LogLevel | rplot.py:172 | `1 - clip(log(abs(F)), 0.01, 2)*.5` lies in `[0, 0.995]` for every real logarithm. It is 0 exactly when the logarithm is at least 2, and 0.995 exactly when it is at most 0.01. |
| Colour.LevelsAntitone | rplot.py:171-174 | Both unbanded normalisers do not increase as the magnitude (or its logarithm) grows. |
| Colour.Hue | rplot.py:167 | `(angle % 2pi)/2pi` lies in `[0, 1)` for every real angle. |
| Colour.HueTurns | rplot.py:176 | A full turn leaves the hue unchanged. On `[0, 2pi)` the hue is the angle measured in turns. |
| Colour.BandedSaturation | rplot.py:168 | For M in `[0, 1]`, `1 - M**10*.75` lies in `[0.25, 1]`. It is 1 at M = 0 and 0.25 at M = 1. |
| Colour.BandedValue | rplot.py:169 | If `M**0.3` is in `[0, 1]`, then `(.2 + M**0.3*.8)*256` lies in `[51.2, 256]`. |
| Colour.PlainSaturation | rplot.py:177 | For M in `[0, 1]`, `1 - M*.7` lies in `[0.3, 1]`. |
| Colour.PlainValue | rplot.py:178 | For M in `[0, 1]`, `(.15 + M*.85)*256` lies in `[38.4, 256]`. |
| Colour.ShadeMonotone | rplot.py:169-178 | Without banding, a larger M gives a saturation no higher and a value no lower. With banding, a larger `M**0.3` gives a value no lower. |
| Colour.BandedSaturationAntitone | rplot.py:168 | With banding, a larger non-negative M gives a saturation `1 - M**10*.75` no higher. |
| Colour.HsvToRgb | rplot.py:91-98 | With zero saturation all three channels equal v. |
| Colour.SectorOfHue | rplot.py:91-92 | For h in `[0, 1)` the truncated sector is already in `0..5`, so clipping does nothing, and the fraction f lies in `[0, 1)`. |
| Colour.SectorTableBounds | rplot.py:96-98 | The three `choose` rows show v and p in every sector, and every entry lies between p and v when q and t do. |
| Colour.HsvChannelBounds | rplot.py:91-98 | For h in `[0, 1)`, s in `[0, 1]` and v ≥ 0, every channel lies in `[v(1-s), v]`, some channel equals v, and some channel equals `v(1-s)`. |
| Colour.HsvRecoversValueAndSaturation | rplot.py:91-98 | The conversion can be inverted for value and saturation: the brightest channel is v, and `1 - darkest/brightest` is s. |
| Colour.HsvInByteRange | rplot.py:91-100 | With s in `[0, 1]` and v in `[0, 256]` every channel lies in `[0, 256]`. |
| Colour.HsvClipAtOne | rplot.py:91-98 | A hue of exactly 1 lands in sector 6. It is clipped to sector 5's row, and its fraction is computed from the unclipped index as 0, giving `(v, v(1-s), v)`. |
| Colour.TableHue | rplot.py:96-98 | In sector k, with q and t written as v minus and p plus the same rise a, the `choose` rows produce a colour whose hue, read back by the standard RGB-to-hue formula (`RgbToHue`), is `(k + a/(v-p))/6`. |
| Colour.HsvRecoversHue | rplot.py:91-98 | For h in `[0, 1)`, s in `(0, 1]` and v > 0 the colour is not grey, and the RGB-to-hue formula returns exactly h. The hue is encoded faithfully, not just the value and saturation. |
| Colour.HsvHueInjective | rplot.py:91-98 | With the same positive saturation and value, two hues in `[0, 1)` that give the same colour are equal. |
| Plot.NewRPlot | rplot.py:53-74 | The constructor fails exactly when the scale is zero. Otherwise it stores the text unchanged and the offsets in world units (pixel offset / scale), and turns banding on. |
| Plot.DefaultRPlotShape | rplot.py:53 | With the defaults the plot is 800 x 600, has scale 80 and band distance 1, is centred on the origin, and has both flags on. |
| Plot.SetFunction | rplot.py:104-119 | After `rplot.function = value`, `str(rplot)` is the pre-processed text and no other field changes. |
| Plot.SetFunctionEcho | rplot.py:111-119 | After an assignment through the setter, assigning `str(rplot)` back changes nothing. |
| Plot.ConstructedEchoChanges | rplot.py:66 | A plot constructed from `"2i"` stores `"2i"`, so assigning `str(rplot)` back stores `"2*i"` and changes the plot. |
| Plot.SetOffsetX | rplot.py:189-190 | The horizontal offset moves by exactly `offset` pixels (`offset/scale` world units). Nothing else changes. |
| Plot.SetOffsetY | rplot.py:192-193 | The vertical offset moves by exactly `offset` pixels. Nothing else changes. |
| Plot.Move | rplot.py:195-197 | `move(x, y)` moves the offsets by x and y pixels and changes nothing else. |
| Plot.MoveInverse | rplot.py:195-197 | At a fixed scale, `move(dx, dy)` followed by `move(-dx, -dy)` restores the plot exactly. |
| Plot.MoveCompose | rplot.py:195-197 | At a fixed scale, `move(a, b)` then `move(c, d)` equals `move(a+c, b+d)`. |
| Plot.MoveShiftsGrid | rplot.py:124-132 | After panning by (dx, dy) pixels, column c shows the abscissa column `c+dx` showed before, and row r shows the ordinate row `r-dy` showed before. |
| Plot.CreateValues | rplot.py:121-142 | The returned grid is the plot's grid, and the value array has the grid's shape with `f` applied to `X + iY` at every sample. |
| Plot.Level | rplot.py:144-174 | The normalised magnitude of every value lies in `[0, 1]`, and in `[0, 0.995]` in the unbanded logarithmic mode. |
| Plot.Shade | rplot.py:164-180 | Hue, value and saturation can all be read back from the pixel. The RGB-to-hue formula gives the phase's hue `(angle % 2pi)/2pi`, the brightest channel is V, and `1 - darkest/brightest` is S. This holds without banding always, and with banding when `M**0.3` is in `[0, 1]`. |
| Plot.CreateGraph | rplot.py:159-181 | The image has the grid's shape, the returned values and grid are those of `_create_values`, and each pixel is the shade of the value sampled there. |
| Plot.ShadeInRange | rplot.py:159-180 | Under the assumed ranges of the primitives, every channel of a shaded value lies in `[0, 256]`, in every mode. |
| Plot.CreateGraphInRange | rplot.py:159-181 | Every pixel of a rendered image has all three channels in `[0, 256]`. |
| Gui.StopThread | gui.py:145-148 | Abort is set only if a worker exists and is running. A running worker is then waited for, so it is no longer running afterwards. |
| Gui.CreateImage | gui.py:129-143 | Before each render the plot receives the window width, height and `_plot_scale`, and nothing else in it changes. The new worker renders that exact snapshot, unaborted. |
| Gui.CreateImageIdempotent | gui.py:129-143 | A second `_create_image` straight after the first leaves the window in the same state. |
| Gui.Run | gui.py:291-295 | The worker emits the image and the values together, and does so exactly when it was not aborted and its expression evaluates. A rendering that raises ends `run` with nothing emitted. What it emits is the render of its own snapshot. |
| Gui.WorkerFinished | gui.py:150-159 | When the running worker finishes, the window shows its render exactly when it was not aborted and its expression evaluated. Otherwise it keeps what it showed. The worker is marked finished and nothing else changes. Without a running worker nothing changes. |
| Gui.SupersededNeverEmits | gui.py:145-148 | A running worker that is stopped for a newer render emits nothing. |
| Gui.OnlyNewestRenderShown | gui.py:137-143 | When render A is followed by render B, A emits nothing. Once B finishes, the window shows B's result if the expression evaluates, and otherwise what it showed before. |
| Gui.ZoomFactor | gui.py:165 | The factor `delta/1000 + 1` is above 1 for a positive delta, in (0, 1) for -1000 < delta < 0, zero exactly at -1000, in (-1, 0) for -2000 < delta < -1000, -1 at -2000, and below -1 beyond. |
| Gui.ZoomedScale | gui.py:165-172 | The zoom fails (division by zero) exactly at delta -1000. A positive scale stays positive. For a factor > 0 the scale is multiplied by the factor, otherwise by `1/abs(factor)`. |
| Gui.ZoomDirection | gui.py:165-172 | A positive delta zooms in, -1000 < delta < 0 zooms out, and -2000 < delta < -1000 zooms in. Delta 0 and -2000 keep the scale, and delta below -2000 zooms out. |
| Gui.Scale | gui.py:164-177 | A delta of -1000 raises `ZeroDivisionError` before anything changes. Otherwise the zoom becomes the zoomed scale. With an image shown, a render of the unchanged plot starts at the new zoom. With no image yet, `AttributeError` is raised with nothing else changed. |
| Gui.ScaleBeforeFirstImage | gui.py:164-177 | A zoom by a factor other than ±1 before the first image changes the zoom but leaves the plot, and so its scale, as it was. |
| Gui.ToggleLog | gui.py:118-120 | The log flag is flipped. The rest of the plot and window is unchanged, except that a render of the new plot starts at the window's size and zoom. |
| Gui.ToggleNorm | gui.py:122-124 | The normalisation flag is flipped. The rest of the plot and window is unchanged, except that a render of the new plot starts at the window's size and zoom. |
| Gui.SetUseLog | gui.py:193-209 | The log flag becomes `use` and the previous value is returned. Nothing else changes, except that a render of the new plot starts. |
| Gui.SetUseNormalization | gui.py:211-227 | The normalisation flag becomes `use` and the previous value is returned. Nothing else changes, except that a render of the new plot starts. |
| Gui.FlagRoundTrips | gui.py:193-227 | Toggling twice restores a flag, and so does setting a flag back to the value the setter returned. |
| Gui.SetFunctionText | gui.py:181-188 | After `set_function(text)` the plot shows the pre-processed text. Nothing else in the plot or window changes, except that a render of the new plot starts. |
| Gui.SetFunctionTextEcho | gui.py:181-191 | The second `set_function` call, triggered when the text box is written and emits `textChanged`, leaves the window as the first call left it. |
| Gui.KeyPress | gui.py:264-276 | PageUp is a wheel step of 200 and multiplies the zoom by 1.2. PageDown is a step of -200 and multiplies it by 0.8. F1 is the log toggle and F2 the normalisation toggle, without zooming or raising. Other keys do nothing. |
| Gui.MousePress | gui.py:231-235 | A press starts a drag and records the start point only when no drag is in progress. Only the drag flag and the two points can change. |
| Gui.MouseRelease | gui.py:237-241 | A release always leaves no drag in progress, and does nothing without a drag. After a drag the plot is panned by the drag vector, and a render of the panned plot starts with nothing else changed. |
| Gui.DragPans | gui.py:231-241 | A drag from `(x0, y0)` to `(x1, y1)` applies `move(x0 - x1, y1 - y0)` at the plot's own scale. The render then installs the zoom as the plot's scale. |
| Gui.DragBackRestores | gui.py:231-241 | Dragging from a to b and back leaves the plot at the zoom. It restores the plot exactly when the plot's scale already was the zoom. |
| Gui.StaleDragDrifts | gui.py:237-241 | When the plot's scale lags behind the zoom, a horizontal drag there and back does not return to the old horizontal offset. |
| Gui.NewWindow | gui.py:42-61 | A new window takes over the plot's scale, has no drag in progress, shows nothing yet, and sizes the plot to the window. It is the initial state (no worker, drag points at the origin) with a render started, and nothing else set. |
| Gui.NewWindowValid | gui.py:54 | A window on a plot with a positive scale and a non-zero band distance starts in the consistent state `Valid`. |
| Gui.Step | gui.py:118-276 | Only a zoom can raise: `ZeroDivisionError` exactly for a wheel delta of -1000, and `AttributeError` exactly for any other zoom before the first image. Only a finished worker changes what is shown, and a shown image is never lost. A handler that does not render leaves the plot unchanged. |
| Gui.StepPreservesValid | gui.py:118-241 | Every event, raising or not, keeps the window consistent: positive zoom and plot scale, the plot sized to the window, and a newest worker that renders the current plot unaborted. |
| Gui.RenderSyncsScale | gui.py:129-143 | Every rendering handler, except a zoom that raises, leaves the plot's scale equal to the zoom, with a fresh worker on the current plot. |
| Gui.FinishedShowsCurrentPlot | gui.py:291-295 | When the newest worker finishes and the plot's expression evaluates, the window shows the render of the plot exactly as the window holds it. |
| Gui.FailedRenderKeepsImage | gui.py:291-295 | When the plot's expression does not evaluate, the finishing worker emits nothing. The previous image and values stay shown, and only the worker is marked finished. |

## Left out

- Evaluating the expression text (`eval` in the `function` getter, rplot.py:107-109) and the numpy/scipy namespace (`gamma`, `lambertw`, ...). This is arbitrary code execution and foreign calls. Evaluation is a parameter `ev` that yields the function or reports that `eval` raised.
- Gui.Run: whether the rendering raises is decided by the expression text alone. A raise that would depend on the sampled points rather than on the text is not modelled separately. numpy turns most pointwise failures into a warning with an `inf` or `nan` value, not a raise.
- `np.log`, `np.abs`, `np.angle`, `x ** 0.3` and `pi` are uninterpreted. Only `pi > 0` and the unit-interval range of `x ** 0.3` are assumed.
- IEEE-754 behaviour: `log(0) = -inf`, NaN propagation through `%` and `clip`, `astype(int)` of NaN, and division of a numpy array by a zero scale or band distance. Reals have no NaN or infinity. So `Plot.CreateGraph` requires a non-zero scale and, with banding on, a non-zero band distance.
- The `astype(np.uint8)` cast in `hsv_to_rgb`. V reaches exactly 256 when M = 1, where the cast is platform-dependent, so the channels are modelled as reals in `[0, 256]`.
- `misc.toimage`, `show_graph`, the `__main__` block and `warnings.filterwarnings`. These are image-library calls and output.
- All Qt: widgets, layout, checkbox states, pixmap scaling in `_scale`, image dragging in `mouseMoveEvent`, tooltips, window centring and the title.
- Threads: the `QThread` start/wait, the signals and the `copy.copy` snapshot are concurrency. The model keeps only the sequential rule: a stopped worker is joined with abort set and emits nothing. A snapshot is a value copy. Two interleavings are not modelled. A worker that passed its abort test before `_stop_thread` set the flag still emits. A result emitted but not yet delivered by the event loop still arrives after the next render has started.
- The text box and the window title that `set_function` updates are Qt. Only the re-entrant `set_function` call caused by writing the text box is modelled (`Gui.SetFunctionTextEcho`).
- run.py: command-line handling and application start-up.
