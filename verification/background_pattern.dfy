/**
 * The background pattern drawn beneath the graph
 * (src/ui/background_pattern.rs: `Grid`, `BackgroundPattern`).
 *
 * `Grid::draw` is modelled as a method that returns the stroke it would
 * paint with and the line segments it would hand to the painter, in the
 * order the two loops issue them. The rotation by `angle` is not modelled:
 * the pattern-space bounds are the graph viewport itself (the angle-0 case).
 * For an ordered screen rectangle that is what `rotate_bb` yields at angle 0;
 * for an unordered one `rotate_bb` would put min before max, and the model
 * keeps the corners as they are.
 */
module Background {
  import opened Geometry
  import opened ViewportTransform

  /** `Grid`: spacing between lines (in icon widths) and rotation angle. */
  datatype Grid = Grid(spacing: Vec2, angle: real)

  /** The opaque `CustomBackground` callback, known only by its identity. */
  datatype CustomBackground = CustomBackground(id: nat)

  /** `BackgroundPattern`: exactly three variants. */
  datatype BackgroundPattern =
    | NoPattern
    | GridPattern(grid: Grid)
    | Custom(callback: CustomBackground)

  const DefaultGridSpacing: Vec2 := Vec2(5.0, 5.0)
  const DefaultGridAngle: real := 1.0

  /** A stroke: its width and the opacity factor applied to its colour. */
  datatype Stroke = Stroke(width: real, opacity: real)

  /** One `line_segment` call of the painter, in screen space. */
  datatype Segment = Segment(from: Pos2, to: Pos2)

  /** What `BackgroundPattern::draw` does in one frame. */
  datatype PatternOutput =
    | NothingDrawn
    | Lines(stroke: Stroke, segments: seq<Segment>)
    | CustomCalled(callback: CustomBackground)

  /** `Grid::default()`. */
  function DefaultGrid(): (g: Grid)
    ensures g == NewGrid(DefaultGridSpacing, DefaultGridAngle)
  {
    Grid(DefaultGridSpacing, DefaultGridAngle)
  }

  /** `Grid::new(spacing, angle)`. */
  function NewGrid(spacing: Vec2, angle: real): Grid {
    Grid(spacing, angle)
  }

  /** `BackgroundPattern::default()`: a grid with the default configuration. */
  function DefaultPattern(): BackgroundPattern {
    GridPattern(DefaultGrid())
  }

  /** `BackgroundPattern::new()`. */
  function NewPattern(): BackgroundPattern {
    GridPattern(NewGrid(DefaultGridSpacing, DefaultGridAngle))
  }

  /** `BackgroundPattern::grid(spacing, angle)`. */
  function GridOf(spacing: Vec2, angle: real): BackgroundPattern {
    GridPattern(NewGrid(spacing, angle))
  }

  /** `Default` and `new()` agree: a grid spaced (5, 5) at angle 1.0. */
  lemma DefaultIsNew()
    ensures DefaultPattern() == NewPattern() == GridOf(Vec2(5.0, 5.0), 1.0)
    ensures DefaultPattern().grid.spacing == Vec2(5.0, 5.0) && DefaultPattern().grid.angle == 1.0
  {
  }

  /** `PartialEq for BackgroundPattern`: only two grids can be equal. */
  function PatternEq(a: BackgroundPattern, b: BackgroundPattern): bool {
    match (a, b)
    case (GridPattern(l), GridPattern(r)) => l == r
    case _ => false
  }

  /** Equality holds exactly between grids with equal configuration. */
  lemma PatternEqOnlyGrids(a: BackgroundPattern, b: BackgroundPattern)
    ensures PatternEq(a, b) <==> a.GridPattern? && b.GridPattern? && a.grid == b.grid
  {
  }

  /** The relation is not reflexive: `NoPattern` and every `Custom` differ from themselves. */
  lemma PatternEqNotReflexive(c: CustomBackground, p: BackgroundPattern)
    ensures !PatternEq(NoPattern, NoPattern)
    ensures !PatternEq(Custom(c), p) && !PatternEq(p, Custom(c))
    ensures !PatternEq(NoPattern, p) && !PatternEq(p, NoPattern)
  {
  }

  /** It is still symmetric and transitive (a partial equivalence). */
  lemma PatternEqPartialEquivalence(a: BackgroundPattern, b: BackgroundPattern, c: BackgroundPattern)
    ensures PatternEq(a, b) ==> PatternEq(b, a)
    ensures PatternEq(a, b) && PatternEq(b, c) ==> PatternEq(a, c)
    ensures PatternEq(a, a) <==> a.GridPattern?
  {
  }

  /**
   * The stroke of `Grid::draw`: width times max(scale, 1), colour
   * multiplied by min(scale, 1).
   */
  function ScaledStroke(base: Stroke, scale: real): (r: Stroke)
    ensures scale >= 1.0 ==> r == Stroke(base.width * scale, base.opacity)
    ensures scale <= 1.0 ==> r == Stroke(base.width, base.opacity * scale)
    ensures base.width >= 0.0 ==> r.width >= base.width
    ensures base.opacity >= 0.0 && scale >= 0.0 ==> 0.0 <= r.opacity <= base.opacity
  {
    Stroke(base.width * Max(scale, 1.0), base.opacity * Min(scale, 1.0))
  }

  /** The grid spacing in graph units: `icon_width * spacing`. */
  function LineSpacing(g: Grid, iconWidth: real): Vec2 {
    Vec2(iconWidth * g.spacing.x, iconWidth * g.spacing.y)
  }

  /** Number of lines the loop `for k in 0..=(max - min)` runs for. */
  function LineCount(lo: real, hi: real, s: real): (n: nat)
    requires s > 0.0
  {
    var first, last := Ceil(lo / s), Floor(hi / s);
    if last - first + 1 > 0 then last - first + 1 else 0
  }

  /**
   * The coordinates of the grid lines drawn between `lo` and `hi` on one
   * axis: (k + ceil(lo / s)) * s for k = 0 ..= floor(hi / s) - ceil(lo / s).
   */
  function GridLines(lo: real, hi: real, s: real): seq<real>
    requires s > 0.0
  {
    seq(LineCount(lo, hi, s), k => (k + Ceil(lo / s)) as real * s)
  }

  lemma MulMonotone(a: real, b: real, s: real)
    requires s > 0.0 && a <= b
    ensures a * s <= b * s
  {
    assert b * s - a * s == (b - a) * s;
  }

  /** Every drawn coordinate lies between the bounds. */
  lemma {:induction false} GridLinesInBounds(lo: real, hi: real, s: real)
    requires s > 0.0
    ensures forall k :: 0 <= k < |GridLines(lo, hi, s)| ==> lo <= GridLines(lo, hi, s)[k] <= hi
  {
    var first, last := Ceil(lo / s), Floor(hi / s);
    forall k | 0 <= k < |GridLines(lo, hi, s)|
      ensures lo <= GridLines(lo, hi, s)[k] <= hi
    {
      assert lo / s <= (k + first) as real <= hi / s;
      MulMonotone(lo / s, (k + first) as real, s);
      MulMonotone((k + first) as real, hi / s, s);
    }
  }

  /** Every multiple of the spacing between the bounds is drawn, at its place in order. */
  lemma {:induction false} GridLinesComplete(lo: real, hi: real, s: real, m: int)
    requires s > 0.0
    requires lo <= m as real * s <= hi
    ensures 0 <= m - Ceil(lo / s) < |GridLines(lo, hi, s)|
    ensures GridLines(lo, hi, s)[m - Ceil(lo / s)] == m as real * s
  {
    DivMonotone(lo, m as real * s, s);
    DivMonotone(m as real * s, hi, s);
    assert m as real * s / s == m as real;
  }

  /** Consecutive lines are exactly one spacing apart, so the lines are strictly increasing. */
  lemma GridLinesSpaced(lo: real, hi: real, s: real, k: int)
    requires s > 0.0 && 0 <= k && k + 1 < |GridLines(lo, hi, s)|
    ensures GridLines(lo, hi, s)[k + 1] == GridLines(lo, hi, s)[k] + s
  {
    var first := Ceil(lo / s);
    assert (k + 1 + first) as real * s == (k + first) as real * s + s;
  }

  /**
   * The number of lines is bounded by the visible extent alone: at most
   * (hi - lo) / s + 1, whatever the distance of the bounds from the origin.
   */
  lemma {:induction false} GridLineCountBounded(lo: real, hi: real, s: real)
    requires s > 0.0
    ensures |GridLines(lo, hi, s)| as real <= Max(0.0, (hi - lo) / s + 1.0)
    ensures lo <= hi ==> |GridLines(lo, hi, s)| as real >= (hi - lo) / s - 1.0
  {
    var first, last := Ceil(lo / s), Floor(hi / s);
    assert (hi - lo) / s == hi / s - lo / s;
  }

  /** The vertical line at graph x, from the bounds' top to their bottom, in screen space. */
  function VerticalLine(vp: Viewport, bounds: Rect, x: real): Segment {
    Segment(GraphPosToScreen(vp, Pos2(x, bounds.min.y)), GraphPosToScreen(vp, Pos2(x, bounds.max.y)))
  }

  /** The horizontal line at graph y, across the bounds, in screen space. */
  function HorizontalLine(vp: Viewport, bounds: Rect, y: real): Segment {
    Segment(GraphPosToScreen(vp, Pos2(bounds.min.x, y)), GraphPosToScreen(vp, Pos2(bounds.max.x, y)))
  }

  /** The vertical lines: one per x coordinate of the grid. */
  function VerticalSegments(vp: Viewport, bounds: Rect, s: real): (r: seq<Segment>)
    requires s > 0.0
    ensures |r| == |GridLines(bounds.min.x, bounds.max.x, s)|
  {
    var xs := GridLines(bounds.min.x, bounds.max.x, s);
    seq(|xs|, k requires 0 <= k < |xs| => VerticalLine(vp, bounds, xs[k]))
  }

  /** The horizontal lines: one per y coordinate of the grid. */
  function HorizontalSegments(vp: Viewport, bounds: Rect, s: real): (r: seq<Segment>)
    requires s > 0.0
    ensures |r| == |GridLines(bounds.min.y, bounds.max.y, s)|
  {
    var ys := GridLines(bounds.min.y, bounds.max.y, s);
    seq(|ys|, k requires 0 <= k < |ys| => HorizontalLine(vp, bounds, ys[k]))
  }

  predicate ValidGridInputs(g: Grid, iconWidth: real, vp: Viewport) {
    ValidViewport(vp) && iconWidth > 0.0 && g.spacing.x > 0.0 && g.spacing.y > 0.0
  }

  /** Everything `Grid::draw` paints in one frame: vertical lines, then horizontal ones. */
  function GridSegments(g: Grid, iconWidth: real, vp: Viewport): seq<Segment>
    requires ValidGridInputs(g, iconWidth, vp)
  {
    var sp := LineSpacing(g, iconWidth);
    var bounds := GraphViewport(vp);
    VerticalSegments(vp, bounds, sp.x) + HorizontalSegments(vp, bounds, sp.y)
  }

  /**
   * `Grid::draw`: the stroke, then one segment per grid line index on each
   * axis, issued by two counting loops.
   */
  method DrawGrid(g: Grid, baseStroke: Stroke, iconWidth: real, vp: Viewport)
    returns (stroke: Stroke, segments: seq<Segment>)
    requires ValidGridInputs(g, iconWidth, vp)
    ensures stroke == ScaledStroke(baseStroke, vp.scale)
    ensures segments == GridSegments(g, iconWidth, vp)
  {
    stroke := ScaledStroke(baseStroke, vp.scale);
    var spacing := LineSpacing(g, iconWidth);
    var bounds := GraphViewport(vp);

    var minX := Ceil(bounds.min.x / spacing.x);
    var maxX := Floor(bounds.max.x / spacing.x);
    ghost var vertical := VerticalSegments(vp, bounds, spacing.x);
    segments := [];
    var k := 0;
    while k <= maxX - minX
      invariant 0 <= k <= |vertical|
      invariant k < |vertical| <==> k <= maxX - minX
      invariant segments == vertical[..k]
    {
      var x := (k + minX) as real * spacing.x;
      assert GridLines(bounds.min.x, bounds.max.x, spacing.x)[k] == x;
      segments := segments + [VerticalLine(vp, bounds, x)];
      assert segments == vertical[..k + 1];
      k := k + 1;
    }

    var minY := Ceil(bounds.min.y / spacing.y);
    var maxY := Floor(bounds.max.y / spacing.y);
    ghost var horizontal := HorizontalSegments(vp, bounds, spacing.y);
    k := 0;
    while k <= maxY - minY
      invariant 0 <= k <= |horizontal|
      invariant k < |horizontal| <==> k <= maxY - minY
      invariant segments == vertical + horizontal[..k]
    {
      var y := (k + minY) as real * spacing.y;
      assert GridLines(bounds.min.y, bounds.max.y, spacing.y)[k] == y;
      segments := segments + [HorizontalLine(vp, bounds, y)];
      assert segments == vertical + horizontal[..k + 1];
      k := k + 1;
    }
  }

  /** A graph point inside the graph viewport is shown inside the screen rectangle. */
  lemma {:induction false} InsideStaysInside(vp: Viewport, p: Pos2)
    requires ValidViewport(vp)
    requires GraphViewport(vp).min.x <= p.x <= GraphViewport(vp).max.x
    requires GraphViewport(vp).min.y <= p.y <= GraphViewport(vp).max.y
    ensures vp.rect.min.x <= GraphPosToScreen(vp, p).x <= vp.rect.max.x
    ensures vp.rect.min.y <= GraphPosToScreen(vp, p).y <= vp.rect.max.y
  {
    var bounds := GraphViewport(vp);
    PosMonotone(vp, bounds.min, p);
    PosMonotone(vp, p, bounds.max);
    ScreenGraphScreen(vp, vp.rect.min);
    ScreenGraphScreen(vp, vp.rect.max);
  }

  /** Every vertical line sits at one screen x inside the screen rectangle. */
  lemma {:induction false} VerticalSegmentsVisible(vp: Viewport, s: real)
    requires ValidViewport(vp) && Ordered(vp.rect) && s > 0.0
    ensures var v := VerticalSegments(vp, GraphViewport(vp), s);
            forall k :: 0 <= k < |v| ==>
              v[k].from.x == v[k].to.x && vp.rect.min.x <= v[k].from.x <= vp.rect.max.x
  {
    var bounds := GraphViewport(vp);
    GraphViewportOrdered(vp);
    var v := VerticalSegments(vp, bounds, s);
    var xs := GridLines(bounds.min.x, bounds.max.x, s);
    GridLinesInBounds(bounds.min.x, bounds.max.x, s);
    forall k | 0 <= k < |v|
      ensures v[k].from.x == v[k].to.x && vp.rect.min.x <= v[k].from.x <= vp.rect.max.x
    {
      assert v[k] == VerticalLine(vp, bounds, xs[k]);
      InsideStaysInside(vp, Pos2(xs[k], bounds.min.y));
    }
  }

  /** Every horizontal line sits at one screen y inside the screen rectangle. */
  lemma {:induction false} HorizontalSegmentsVisible(vp: Viewport, s: real)
    requires ValidViewport(vp) && Ordered(vp.rect) && s > 0.0
    ensures var h := HorizontalSegments(vp, GraphViewport(vp), s);
            forall k :: 0 <= k < |h| ==>
              h[k].from.y == h[k].to.y && vp.rect.min.y <= h[k].from.y <= vp.rect.max.y
  {
    var bounds := GraphViewport(vp);
    GraphViewportOrdered(vp);
    var h := HorizontalSegments(vp, bounds, s);
    var ys := GridLines(bounds.min.y, bounds.max.y, s);
    GridLinesInBounds(bounds.min.y, bounds.max.y, s);
    forall k | 0 <= k < |h|
      ensures h[k].from.y == h[k].to.y && vp.rect.min.y <= h[k].from.y <= vp.rect.max.y
    {
      assert h[k] == HorizontalLine(vp, bounds, ys[k]);
      InsideStaysInside(vp, Pos2(bounds.min.x, ys[k]));
    }
  }

  /** `BackgroundPattern::draw`: dispatch on the variant. */
  method Draw(p: BackgroundPattern, baseStroke: Stroke, iconWidth: real, vp: Viewport)
    returns (out: PatternOutput)
    requires p.GridPattern? ==> ValidGridInputs(p.grid, iconWidth, vp)
    ensures p.NoPattern? ==> out == NothingDrawn
    ensures p.Custom? ==> out == CustomCalled(p.callback)
    ensures p.GridPattern? ==>
              out == Lines(ScaledStroke(baseStroke, vp.scale), GridSegments(p.grid, iconWidth, vp))
  {
    match p
    case GridPattern(g) =>
      var stroke, segments := DrawGrid(g, baseStroke, iconWidth, vp);
      out := Lines(stroke, segments);
    case Custom(c) =>
      out := CustomCalled(c);
    case NoPattern =>
      out := NothingDrawn;
  }
}
