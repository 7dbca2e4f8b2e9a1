/** The drawing canvas: a square white bitmap, the `isDrawing` and
    `hasDrawing` flags, and the handlers that emit the bitmap to the page. */
module DrawingSurface {
  import opened Options
  import opened Raster
  import BlankCheck

  /** The largest side the canvas takes, in pixels. */
  const MaxSide: nat := 280

  /** Size of an HTML canvas whose `width` and `height` were never set. */
  const DefaultWidth: nat := 300
  const DefaultHeight: nat := 150

  /** `Math.min(parent?.clientWidth || 280, 280)`: a missing parent or a zero
      width falls back to 280. */
  function CanvasSide(parentWidth: Option<nat>): (side: nat)
    ensures 0 < side <= MaxSide
    ensures parentWidth.Some? && 0 < parentWidth.value <= MaxSide ==> side == parentWidth.value
    ensures parentWidth.Some? && parentWidth.value > MaxSide ==> side == MaxSide
    ensures parentWidth.None? || parentWidth == Some(0) ==> side == MaxSide
  {
    var w := if parentWidth.Some? && parentWidth.value != 0 then parentWidth.value else MaxSide;
    if w < MaxSide then w else MaxSide
  }

  /** Component state: whether the 2D context has been captured (`ctx`), the
      two flags, and the canvas bitmap. */
  datatype Canvas = Canvas(ctx: bool, isDrawing: bool, hasDrawing: bool,
                           width: nat, height: nat, pixels: seq<Pixel>)

  /** The bitmap matches its dimensions, and once the context is captured the
      canvas is square with a side of at most 280. */
  predicate Wf(c: Canvas) {
    && |c.pixels| == c.width * c.height
    && (c.ctx ==> c.width == c.height && 0 < c.width <= MaxSide)
  }

  /** The component as first rendered, before its mount effect. */
  const Initial: Canvas :=
    Canvas(false, false, false, DefaultWidth, DefaultHeight, Filled(DefaultWidth, DefaultHeight, Transparent))

  /** The mount effect: when a 2D context is available, size the canvas square,
      paint it white and capture the context; otherwise change nothing. */
  function Mount(c: Canvas, contextAvailable: bool, parentWidth: Option<nat>): (r: Canvas)
    requires Wf(c)
    ensures Wf(r)
    ensures !contextAvailable ==> r == c
    ensures contextAvailable ==>
              r.ctx && r.width == r.height == CanvasSide(parentWidth) &&
              r.isDrawing == c.isDrawing && r.hasDrawing == c.hasDrawing &&
              forall k :: 0 <= k < |r.pixels| ==> r.pixels[k] == White
  {
    if !contextAvailable then c
    else
      var side := CanvasSide(parentWidth);
      c.(ctx := true, width := side, height := side, pixels := Filled(side, side, White))
  }

  /** `getImageData(0, 0, width, height)` of the whole canvas. */
  function Snapshot(c: Canvas): (img: Image)
    requires Wf(c)
    ensures img.width == c.width && img.height == c.height
    ensures |img.data| == BytesPerPixel * img.width * img.height
    ensures forall j :: 0 <= j < |img.data| ==>
              img.data[j] == c.pixels[j / BytesPerPixel].Channel(j % BytesPerPixel)
  {
    Image(c.width, c.height, Flatten(c.pixels))
  }

  /** Byte `ch` of pixel `k` of the snapshot is that channel of the canvas pixel. */
  lemma SnapshotPixelBytes(c: Canvas, k: nat, ch: nat)
    requires Wf(c) && k < |c.pixels| && ch < BytesPerPixel
    ensures BytesPerPixel * k + ch < |Snapshot(c).data|
    ensures Snapshot(c).data[BytesPerPixel * k + ch] == c.pixels[k].Channel(ch)
  {
    FlattenAt(c.pixels, k, ch);
  }

  /** What a handler leaves behind: the new state and the bitmap it passed to
      `onImageData`, if any. */
  datatype Reaction = Reaction(canvas: Canvas, emitted: Option<Image>)

  /** Mouse or touch down. `beginPath` and `moveTo` paint nothing. */
  function StartDrawing(c: Canvas): (r: Canvas)
    ensures !c.ctx ==> r == c
    ensures c.ctx ==> r.isDrawing && r.hasDrawing
    ensures r.ctx == c.ctx && r.width == c.width && r.height == c.height && r.pixels == c.pixels
  {
    if !c.ctx then c else c.(isDrawing := true, hasDrawing := true)
  }

  /** The pixels a stroke segment covers, painted in the stroke colour.
      Indices outside the bitmap are clipped. */
  function Paint(pixels: seq<Pixel>, covered: set<nat>): (r: seq<Pixel>)
    ensures |r| == |pixels|
    ensures forall k :: 0 <= k < |r| ==> r[k] == (if k in covered then Black else pixels[k])
  {
    seq(|pixels|, k requires 0 <= k < |pixels| => if k in covered then Black else pixels[k])
  }

  /** Mouse or touch move: extends and strokes the path while a stroke is
      active; otherwise it does nothing. */
  function Draw(c: Canvas, covered: set<nat>): (r: Canvas)
    ensures !c.isDrawing || !c.ctx ==> r == c
    ensures c.isDrawing && c.ctx ==> r.pixels == Paint(c.pixels, covered)
    ensures r.ctx == c.ctx && r.isDrawing == c.isDrawing && r.hasDrawing == c.hasDrawing
    ensures r.width == c.width && r.height == c.height && |r.pixels| == |c.pixels|
  {
    if !c.isDrawing || !c.ctx then c else c.(pixels := Paint(c.pixels, covered))
  }

  /** Mouse up, mouse leave or touch end: closes an active stroke and emits
      the whole bitmap; without an active stroke it does nothing. */
  function EndDrawing(c: Canvas): (r: Reaction)
    requires Wf(c)
    ensures !c.isDrawing || !c.ctx ==> r == Reaction(c, None)
    ensures c.isDrawing && c.ctx ==>
              r.canvas == c.(isDrawing := false) && r.emitted == Some(Snapshot(c))
  {
    if !c.isDrawing || !c.ctx then Reaction(c, None)
    else Reaction(c.(isDrawing := false), Some(Snapshot(c)))
  }

  /** The clear button: paint the whole canvas white, drop `hasDrawing`, and
      emit the blank bitmap. The stroke flag is left as it is. */
  function ClearCanvas(c: Canvas): (r: Reaction)
    requires Wf(c)
    ensures !c.ctx ==> r == Reaction(c, None)
    ensures c.ctx ==>
              && r.canvas.ctx
              && !r.canvas.hasDrawing
              && r.canvas.isDrawing == c.isDrawing
              && r.canvas.width == c.width && r.canvas.height == c.height
              && (forall k :: 0 <= k < |r.canvas.pixels| ==> r.canvas.pixels[k] == White)
              && Wf(r.canvas)
              && r.emitted == Some(Snapshot(r.canvas))
  {
    if !c.ctx then Reaction(c, None)
    else
      var cleared := c.(hasDrawing := false, pixels := Filled(c.width, c.height, White));
      Reaction(cleared, Some(Snapshot(cleared)))
  }

  /** The clear button is rendered exactly while `hasDrawing` holds. */
  predicate ClearButtonShown(c: Canvas): (shown: bool)
    ensures shown <==> c.hasDrawing
  {
    c.hasDrawing
  }

  /** The handlers wired to the canvas element and the clear button. */
  datatype Event = Start | Move(covered: set<nat>) | End | Leave | Clear

  function Step(c: Canvas, e: Event): (r: Reaction)
    requires Wf(c)
    ensures Wf(r.canvas)
    ensures r.emitted.Some? ==> r.emitted.value == Snapshot(r.canvas) || r.emitted.value == Snapshot(c)
  {
    match e
    case Start => Reaction(StartDrawing(c), None)
    case Move(covered) => Reaction(Draw(c, covered), None)
    case End => EndDrawing(c)
    case Leave => EndDrawing(c)
    case Clear => ClearCanvas(c)
  }

  /** Whether an event is one of the stroke-ending handlers. */
  predicate EndsStroke(e: Event) {
    e.End? || e.Leave?
  }

  /** Final state after a sequence of events. */
  function Run(c: Canvas, events: seq<Event>): (r: Canvas)
    requires Wf(c)
    ensures Wf(r)
    decreases |events|
  {
    if |events| == 0 then c else Run(Step(c, events[0]).canvas, events[1..])
  }

  /** How many bitmaps the stroke-ending handlers emit along the events. */
  function StrokeEmissions(c: Canvas, events: seq<Event>): nat
    requires Wf(c)
    decreases |events|
  {
    if |events| == 0 then 0
    else
      var r := Step(c, events[0]);
      (if EndsStroke(events[0]) && r.emitted.Some? then 1 else 0) + StrokeEmissions(r.canvas, events[1..])
  }

  function CountStarts(events: seq<Event>): nat
    decreases |events|
  {
    if |events| == 0 then 0 else (if events[0].Start? then 1 else 0) + CountStarts(events[1..])
  }

  /** The mount effect turns the default-sized transparent canvas into a
      well-formed square white one with the context captured. */
  lemma MountFromInitial(parentWidth: Option<nat>)
    ensures Wf(Initial)
    ensures var m := Mount(Initial, true, parentWidth);
            m.ctx && !m.isDrawing && !m.hasDrawing && !ClearButtonShown(m) &&
            m.width == m.height == CanvasSide(parentWidth) &&
            !BlankCheck.HasNonWhitePixel(Snapshot(m).data)
  {
    var m := Mount(Initial, true, parentWidth);
    BlankCheck.DrawnIffSomePixelNonWhite(m.pixels);
  }

  /** With a captured context, a start shows the clear button, a clear hides
      it, and moves, ends and leaves leave it as it was. */
  lemma ClearButtonTracksEvents(c: Canvas, e: Event)
    requires Wf(c) && c.ctx
    ensures e.Start? ==> ClearButtonShown(Step(c, e).canvas)
    ensures e.Clear? ==> !ClearButtonShown(Step(c, e).canvas)
    ensures e.Move? || EndsStroke(e) ==> ClearButtonShown(Step(c, e).canvas) == ClearButtonShown(c)
  {
  }

  /** Without a captured context every handler is a no-op. */
  lemma NoContextNoOp(c: Canvas, e: Event)
    requires Wf(c)
    requires !c.ctx
    ensures Step(c, e) == Reaction(c, None)
  {
  }

  /** An active stroke is closed by the first end or leave, which emits the
      bitmap; the next end or leave emits nothing. */
  lemma EndEmitsOnce(c: Canvas, first: Event, second: Event)
    requires Wf(c) && c.ctx && c.isDrawing
    requires EndsStroke(first) && EndsStroke(second)
    ensures Step(c, first).emitted == Some(Snapshot(c))
    ensures !Step(c, first).canvas.isDrawing
    ensures Step(Step(c, first).canvas, second) == Reaction(Step(c, first).canvas, None)
  {
  }

  /** Each emission by an end or leave handler is paid for by a start event
      (or by a stroke already active at the outset): strokes are never
      emitted twice. */
  lemma {:induction false} StrokeEmissionsBounded(c: Canvas, events: seq<Event>)
    requires Wf(c)
    ensures StrokeEmissions(c, events) + (if Run(c, events).isDrawing then 1 else 0)
            <= CountStarts(events) + (if c.isDrawing then 1 else 0)
    decreases |events|
  {
    if |events| > 0 {
      StrokeEmissionsBounded(Step(c, events[0]).canvas, events[1..]);
    }
  }

  /** A cleared canvas emits a bitmap the page controller reads as blank. */
  lemma ClearEmitsBlank(c: Canvas)
    requires Wf(c) && c.ctx
    ensures Step(c, Clear).emitted.Some?
    ensures !BlankCheck.HasNonWhitePixel(Step(c, Clear).emitted.value.data)
    ensures !ClearButtonShown(Step(c, Clear).canvas)
  {
    BlankCheck.WhiteBitmapIsBlank(c.width, c.height);
  }

  /** A stroke that covers at least one pixel of the bitmap reaches the page
      as a bitmap that is not blank. */
  lemma InkReachesEmission(c: Canvas, covered: set<nat>, end: Event)
    requires Wf(c) && c.ctx && c.isDrawing
    requires EndsStroke(end)
    requires exists k :: k in covered && k < |c.pixels|
    ensures var moved := Step(c, Move(covered)).canvas;
            Step(moved, end).emitted.Some? &&
            BlankCheck.HasNonWhitePixel(Step(moved, end).emitted.value.data)
  {
    var moved := Step(c, Move(covered)).canvas;
    var k :| k in covered && k < |c.pixels|;
    assert moved.pixels[k] == Black;
    assert moved.pixels[k].NonWhite();
    BlankCheck.DrawnIffSomePixelNonWhite(moved.pixels);
  }
}
