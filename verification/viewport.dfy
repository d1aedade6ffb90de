/**
 * The viewport transform between screen space and graph space
 * (src/ui/background_pattern.rs, `Viewport`).
 *
 * A viewport is a screen rectangle, a uniform zoom `scale` and a pan
 * `offset`. Graph coordinates are screen coordinates shifted by the pan
 * offset, re-centred on the rectangle's centre and divided by the scale.
 * The source divides by `scale` without a guard; here every conversion
 * that divides asks for `scale > 0`, the invariant the widget keeps.
 */
module ViewportTransform {
  import opened Geometry

  datatype Viewport = Viewport(rect: Rect, scale: real, offset: Vec2)

  predicate ValidViewport(vp: Viewport) { vp.scale > 0.0 }

  /** `screen_pos_to_graph`: (pos + offset - center) / scale. */
  function ScreenPosToGraph(vp: Viewport, pos: Pos2): Pos2
    requires ValidViewport(vp)
  {
    var c := Center(vp.rect);
    Pos2((pos.x + vp.offset.x - c.x) / vp.scale, (pos.y + vp.offset.y - c.y) / vp.scale)
  }

  /** `graph_pos_to_screen`: pos * scale - offset + center. */
  function GraphPosToScreen(vp: Viewport, pos: Pos2): Pos2 {
    var c := Center(vp.rect);
    Pos2(pos.x * vp.scale - vp.offset.x + c.x, pos.y * vp.scale - vp.offset.y + c.y)
  }

  /** `graph_vec_to_screen`: size * scale. */
  function GraphVecToScreen(vp: Viewport, v: Vec2): Vec2 {
    Vec2(v.x * vp.scale, v.y * vp.scale)
  }

  /** `screen_vec_to_graph`: size / scale. */
  function ScreenVecToGraph(vp: Viewport, v: Vec2): Vec2
    requires ValidViewport(vp)
  {
    Vec2(v.x / vp.scale, v.y / vp.scale)
  }

  /** `graph_size_to_screen`: size * scale. */
  function GraphSizeToScreen(vp: Viewport, size: real): real {
    size * vp.scale
  }

  /** `screen_size_to_graph`: size / scale. */
  function ScreenSizeToGraph(vp: Viewport, size: real): real
    requires ValidViewport(vp)
  {
    size / vp.scale
  }

  /** Screen -> graph -> screen is the identity on positions. */
  lemma ScreenGraphScreen(vp: Viewport, p: Pos2)
    requires ValidViewport(vp)
    ensures GraphPosToScreen(vp, ScreenPosToGraph(vp, p)) == p
  {
  }

  /** Graph -> screen -> graph is the identity on positions. */
  lemma GraphScreenGraph(vp: Viewport, p: Pos2)
    requires ValidViewport(vp)
    ensures ScreenPosToGraph(vp, GraphPosToScreen(vp, p)) == p
  {
  }

  /** The vector conversions are mutual inverses, with no offset or centre term. */
  lemma VecRoundTrip(vp: Viewport, v: Vec2)
    requires ValidViewport(vp)
    ensures ScreenVecToGraph(vp, GraphVecToScreen(vp, v)) == v
    ensures GraphVecToScreen(vp, ScreenVecToGraph(vp, v)) == v
  {
  }

  /** The size conversions are mutual inverses. */
  lemma SizeRoundTrip(vp: Viewport, s: real)
    requires ValidViewport(vp)
    ensures ScreenSizeToGraph(vp, GraphSizeToScreen(vp, s)) == s
    ensures GraphSizeToScreen(vp, ScreenSizeToGraph(vp, s)) == s
  {
  }

  /** Moving a graph point by a graph vector moves its screen image by the converted vector. */
  lemma TranslationConsistent(vp: Viewport, p: Pos2, v: Vec2)
    ensures GraphPosToScreen(vp, Translate(p, v))
         == Translate(GraphPosToScreen(vp, p), GraphVecToScreen(vp, v))
  {
    var c := Center(vp.rect);
    var lhs := GraphPosToScreen(vp, Translate(p, v));
    var rhs := Translate(GraphPosToScreen(vp, p), GraphVecToScreen(vp, v));
    assert (p.x + v.x) * vp.scale == p.x * vp.scale + v.x * vp.scale;
    assert (p.y + v.y) * vp.scale == p.y * vp.scale + v.y * vp.scale;
    assert lhs.x == (p.x + v.x) * vp.scale - vp.offset.x + c.x;
    assert rhs.x == p.x * vp.scale - vp.offset.x + c.x + v.x * vp.scale;
    assert lhs.y == (p.y + v.y) * vp.scale - vp.offset.y + c.y;
    assert rhs.y == p.y * vp.scale - vp.offset.y + c.y + v.y * vp.scale;
  }

  /** The same in the other direction: screen displacements become graph displacements. */
  lemma ScreenTranslationConsistent(vp: Viewport, p: Pos2, v: Vec2)
    requires ValidViewport(vp)
    ensures ScreenPosToGraph(vp, Translate(p, v))
         == Translate(ScreenPosToGraph(vp, p), ScreenVecToGraph(vp, v))
  {
  }

  /** The rectangle's centre is shown at graph position offset / scale. */
  lemma CenterMapsToOffset(vp: Viewport)
    requires ValidViewport(vp)
    ensures ScreenPosToGraph(vp, Center(vp.rect)) == Pos2(vp.offset.x / vp.scale, vp.offset.y / vp.scale)
  {
  }

  /** Rect [0,0]-[800,600], scale 2, no offset: (400,300) -> (0,0) and (500,300) -> (50,0). */
  lemma CenterExample()
    ensures var vp := Viewport(Rect(Pos2(0.0, 0.0), Pos2(800.0, 600.0)), 2.0, Zero);
            ScreenPosToGraph(vp, Pos2(400.0, 300.0)) == Pos2(0.0, 0.0)
            && ScreenPosToGraph(vp, Pos2(500.0, 300.0)) == Pos2(50.0, 0.0)
  {
  }

  /** Dividing by a positive number keeps the order. */
  lemma DivMonotone(a: real, b: real, s: real)
    requires s > 0.0 && a <= b
    ensures a / s <= b / s
  {
    assert b / s - a / s == (b - a) / s;
  }

  /** Both conversions of positions are monotone on each axis. */
  lemma {:induction false} PosMonotone(vp: Viewport, p: Pos2, q: Pos2)
    requires ValidViewport(vp)
    requires p.x <= q.x && p.y <= q.y
    ensures ScreenPosToGraph(vp, p).x <= ScreenPosToGraph(vp, q).x
    ensures ScreenPosToGraph(vp, p).y <= ScreenPosToGraph(vp, q).y
    ensures GraphPosToScreen(vp, p).x <= GraphPosToScreen(vp, q).x
    ensures GraphPosToScreen(vp, p).y <= GraphPosToScreen(vp, q).y
  {
    var c := Center(vp.rect);
    DivMonotone(p.x + vp.offset.x - c.x, q.x + vp.offset.x - c.x, vp.scale);
    DivMonotone(p.y + vp.offset.y - c.y, q.y + vp.offset.y - c.y, vp.scale);
    assert q.x * vp.scale - p.x * vp.scale == (q.x - p.x) * vp.scale;
    assert q.y * vp.scale - p.y * vp.scale == (q.y - p.y) * vp.scale;
  }

  /** The graph-space rectangle seen through the viewport (`Grid::draw`, first step). */
  function GraphViewport(vp: Viewport): Rect
    requires ValidViewport(vp)
  {
    Rect(ScreenPosToGraph(vp, vp.rect.min), ScreenPosToGraph(vp, vp.rect.max))
  }

  /** An ordered screen rectangle gives an ordered graph rectangle. */
  lemma GraphViewportOrdered(vp: Viewport)
    requires ValidViewport(vp) && Ordered(vp.rect)
    ensures Ordered(GraphViewport(vp))
  {
    PosMonotone(vp, vp.rect.min, vp.rect.max);
  }

  function Abs(a: real): real { if a < 0.0 then -a else a }

  /**
   * Zooming in (a larger scale) with the screen point held fixed brings its
   * graph position closer to the graph origin and closer to the graph image of
   * the viewport centre, on both axes; and the visible graph extent narrows:
   * the graph viewport is no wider and no taller.
   */
  lemma {:induction false} ZoomInNarrows(vp: Viewport, s2: real, p: Pos2)
    requires ValidViewport(vp) && vp.scale <= s2
    ensures var zoomed := vp.(scale := s2);
            Abs(ScreenPosToGraph(zoomed, p).x) <= Abs(ScreenPosToGraph(vp, p).x)
            && Abs(ScreenPosToGraph(zoomed, p).y) <= Abs(ScreenPosToGraph(vp, p).y)
    ensures var zoomed := vp.(scale := s2);
            Ordered(vp.rect) ==>
              Width(GraphViewport(zoomed)) <= Width(GraphViewport(vp))
              && Height(GraphViewport(zoomed)) <= Height(GraphViewport(vp))
    ensures var zoomed := vp.(scale := s2);
            var c := Center(vp.rect);
            Abs(ScreenPosToGraph(zoomed, p).x - ScreenPosToGraph(zoomed, c).x)
              <= Abs(ScreenPosToGraph(vp, p).x - ScreenPosToGraph(vp, c).x)
            && Abs(ScreenPosToGraph(zoomed, p).y - ScreenPosToGraph(zoomed, c).y)
              <= Abs(ScreenPosToGraph(vp, p).y - ScreenPosToGraph(vp, c).y)
  {
    var c := Center(vp.rect);
    DistanceShrinks(p.x + vp.offset.x - c.x, c.x + vp.offset.x - c.x, vp.scale, s2);
    DistanceShrinks(p.y + vp.offset.y - c.y, c.y + vp.offset.y - c.y, vp.scale, s2);
    DivShrinks(Abs(p.x + vp.offset.x - c.x), vp.scale, s2);
    DivShrinks(Abs(p.y + vp.offset.y - c.y), vp.scale, s2);
    AbsDiv(p.x + vp.offset.x - c.x, vp.scale);
    AbsDiv(p.x + vp.offset.x - c.x, s2);
    AbsDiv(p.y + vp.offset.y - c.y, vp.scale);
    AbsDiv(p.y + vp.offset.y - c.y, s2);
    if Ordered(vp.rect) {
      ExtentShrinks(vp.rect.min.x + vp.offset.x - c.x, vp.rect.max.x + vp.offset.x - c.x, vp.scale, s2);
      ExtentShrinks(vp.rect.min.y + vp.offset.y - c.y, vp.rect.max.y + vp.offset.y - c.y, vp.scale, s2);
    }
  }

  /** Two points divided by a larger scale are no farther apart. */
  lemma DistanceShrinks(a: real, b: real, s1: real, s2: real)
    requires 0.0 < s1 <= s2
    ensures Abs(a / s2 - b / s2) <= Abs(a / s1 - b / s1)
  {
    assert a / s2 - b / s2 == (a - b) / s2;
    assert a / s1 - b / s1 == (a - b) / s1;
    AbsDiv(a - b, s1);
    AbsDiv(a - b, s2);
    DivShrinks(Abs(a - b), s1, s2);
  }

  /** An interval `[lo, hi]` divided by a larger scale is no longer. */
  lemma ExtentShrinks(lo: real, hi: real, s1: real, s2: real)
    requires lo <= hi && 0.0 < s1 <= s2
    ensures hi / s2 - lo / s2 <= hi / s1 - lo / s1
  {
    assert hi / s2 - lo / s2 == (hi - lo) / s2;
    assert hi / s1 - lo / s1 == (hi - lo) / s1;
    DivShrinks(hi - lo, s1, s2);
  }

  lemma DivShrinks(a: real, s1: real, s2: real)
    requires a >= 0.0 && 0.0 < s1 <= s2
    ensures a / s2 <= a / s1
  {
    assert a / s1 - a / s2 == a * (s2 - s1) / (s1 * s2);
  }

  lemma AbsDiv(a: real, s: real)
    requires s > 0.0
    ensures Abs(a / s) == Abs(a) / s
  {
  }
}
