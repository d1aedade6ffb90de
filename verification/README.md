# egui-snarl core, modelled in Dafny

egui-snarl is a node-graph editor widget for egui. This project models the
three pieces of sequential logic at its core and proves properties of them:

- **Viewport transform and background grid** (`viewport.dfy`,
  `background_pattern.dfy`). These are the six conversions between screen
  space and graph space, over `real`. Grid drawing works out the visible graph
  rectangle, then the per-axis integer range of line indices
  `ceil(min/s) ..= floor(max/s)`, then one screen-space segment per line, all
  with a zoom-scaled stroke. `BackgroundPattern` keeps its three variants, its
  `Default`/`new`, and its non-reflexive `PartialEq`.
- **Input-gesture policy** (`events.dfy`). Every default method of
  `GraphEvents` is a predicate (or a delta) over an abstract `Response` and
  `InputState`. The click-based policy `ClickGraphEvents` is a class with a
  `drag` field and a per-frame state machine.
- **Demo connection policy and expression bindings** (`demo.dfy`, with
  `snarl.dfy` for the wire store). This covers the node-kind arity table and
  the accept/reject table of `connect`. An accepted `connect` first
  disconnects every remote, then connects. Also modelled: `extend_bindings`,
  the carry-over of values by name when an expression is re-parsed, and the
  `Var` lookup precondition of `Expr::eval`.

The wire store is an abstract set of (output pin, input pin) pairs.
`src/snarl.rs` is not part of this model: `Snarl::connect` is taken to insert
one pair and `Snarl::disconnect` to remove one. `geometry.dfy` gives exact
`real` stand-ins for egui's `Vec2`, `Pos2` and `Rect`.

The doc comments on the vector and size conversions
(src/ui/background_pattern.rs:32-33, 38-39, 44-45, 50-51) name the opposite
direction from what the code does. The model follows the code:
`graph_vec_to_screen` multiplies by the scale and `screen_vec_to_graph`
divides by it.

## Model

| member | source | states |
|---|---|---|
| ViewportTransform.ScreenPosToGraph | src/ui/background_pattern.rs:22-24 | computes (pos + offset − rect centre) / scale; defined for scale > 0 (partners: ScreenGraphScreen, GraphScreenGraph) |
| ViewportTransform.GraphPosToScreen | src/ui/background_pattern.rs:28-30 | computes pos · scale − offset + rect centre |
| ViewportTransform.GraphVecToScreen | src/ui/background_pattern.rs:34-36 | computes size · scale, componentwise (partner: VecRoundTrip) |
| ViewportTransform.ScreenVecToGraph | src/ui/background_pattern.rs:40-42 | computes size / scale, componentwise; defined for scale > 0 |
| ViewportTransform.GraphSizeToScreen | src/ui/background_pattern.rs:46-48 | computes size · scale (partner: SizeRoundTrip) |
| ViewportTransform.ScreenSizeToGraph | src/ui/background_pattern.rs:52-54 | computes size / scale; defined for scale > 0 |
| ViewportTransform.GraphViewport | src/ui/background_pattern.rs:112-115 | computes the rect whose corners are the graph images of `rect.min` and `rect.max` (partner: GraphViewportOrdered) |
| ViewportTransform.ScreenGraphScreen | src/ui/background_pattern.rs:22-30 | for scale > 0, `graph_pos_to_screen(screen_pos_to_graph(p)) == p` |
| ViewportTransform.GraphScreenGraph | src/ui/background_pattern.rs:22-30 | for scale > 0, `screen_pos_to_graph(graph_pos_to_screen(p)) == p` |
| ViewportTransform.VecRoundTrip | src/ui/background_pattern.rs:34-42 | the vector conversions are mutual inverses in both orders, with no offset or centre term |
| ViewportTransform.SizeRoundTrip | src/ui/background_pattern.rs:46-54 | the size conversions are mutual inverses in both orders |
| ViewportTransform.TranslationConsistent | src/ui/background_pattern.rs:28-36 | `graph_pos_to_screen(p + v) == graph_pos_to_screen(p) + graph_vec_to_screen(v)` |
| ViewportTransform.ScreenTranslationConsistent | src/ui/background_pattern.rs:22-42 | `screen_pos_to_graph(p + v) == screen_pos_to_graph(p) + screen_vec_to_graph(v)` |
| ViewportTransform.CenterMapsToOffset | src/ui/background_pattern.rs:22-24 | the rect centre maps to graph position offset / scale |
| ViewportTransform.CenterExample | src/ui/background_pattern.rs:22-24 | rect [0,0]-[800,600], scale 2, offset 0: (400,300) -> (0,0) and (500,300) -> (50,0) |
| ViewportTransform.PosMonotone | src/ui/background_pattern.rs:22-30 | for scale > 0 both position conversions are monotone on each axis |
| ViewportTransform.GraphViewportOrdered | src/ui/background_pattern.rs:112-115 | the graph viewport built from `rect.min` and `rect.max` has min <= max when the screen rect does |
| ViewportTransform.ZoomInNarrows | src/ui/background_pattern.rs:22-115 | a larger scale moves the graph image of a fixed screen point closer to the graph origin and closer to the graph image of the viewport centre, on both axes; for an ordered screen rect, the graph viewport becomes no wider and no taller |
| Background.NewGrid | src/ui/background_pattern.rs:93-95 | computes the grid with the given spacing and angle |
| Background.DefaultPattern | src/ui/background_pattern.rs:201-205 | computes `Grid` of the default grid (partner: DefaultIsNew) |
| Background.NewPattern | src/ui/background_pattern.rs:215-217 | computes `Grid` of `Grid::new(DEFAULT_GRID_SPACING, DEFAULT_GRID_ANGLE)` |
| Background.GridOf | src/ui/background_pattern.rs:220-222 | computes `Grid` of `Grid::new(spacing, angle)` |
| Background.PatternEq | src/ui/background_pattern.rs:179-186 | computes the match: two grids compare their configuration, every other pair is unequal (partners: the three PatternEq lemmas) |
| Background.LineSpacing | src/ui/background_pattern.rs:107 | computes `icon_width * spacing` componentwise |
| Background.LineCount | src/ui/background_pattern.rs:119-122 | computes the number of iterations of `0..=(max − min)` for min = ceil(lo/s), max = floor(hi/s): max − min + 1, or 0 when that is not positive |
| Background.GridLines | src/ui/background_pattern.rs:119-124 | computes the sequence (k + ceil(lo/s)) · s for each iteration k (partners: GridLinesInBounds, GridLinesComplete, GridLinesSpaced, GridLineCountBounded) |
| Background.VerticalLine | src/ui/background_pattern.rs:126-130 | computes the segment from (x, bounds top) to (x, bounds bottom), mapped to screen space, at angle 0 |
| Background.HorizontalLine | src/ui/background_pattern.rs:142-146 | computes the segment from (bounds left, y) to (bounds right, y), mapped to screen space, at angle 0 |
| Background.VerticalSegments | src/ui/background_pattern.rs:119-133 | one vertical line per x coordinate of `GridLines`, as many as there are coordinates |
| Background.HorizontalSegments | src/ui/background_pattern.rs:135-149 | one horizontal line per y coordinate of `GridLines`, as many as there are coordinates |
| Background.GridSegments | src/ui/background_pattern.rs:97-150 | computes the vertical segments followed by the horizontal segments over the graph viewport (partner: DrawGrid, the Visible lemmas) |
| Background.DefaultGrid | src/ui/background_pattern.rs:68-89 | `Grid::default()` is `Grid::new` of the default spacing (5,5) and angle 1.0 |
| Background.DefaultIsNew | src/ui/background_pattern.rs:201-217 | `BackgroundPattern::default()` and `new()` are both the grid with spacing (5,5) and angle 1.0 |
| Background.PatternEqOnlyGrids | src/ui/background_pattern.rs:179-186 | `eq(a, b)` holds iff both are `Grid` with equal configuration |
| Background.PatternEqNotReflexive | src/ui/background_pattern.rs:179-186 | `NoPattern == NoPattern` is false; `NoPattern` and `Custom` equal nothing, on either side |
| Background.PatternEqPartialEquivalence | src/ui/background_pattern.rs:179-186 | the equality is symmetric and transitive, and reflexive exactly on grids |
| Background.ScaledStroke | src/ui/background_pattern.rs:102-105 | width is base × max(scale,1) and never below the base width; opacity is base × min(scale,1), never above the base |
| Background.GridLinesInBounds | src/ui/background_pattern.rs:119-124 | every drawn coordinate k·s lies between the axis bounds |
| Background.GridLinesComplete | src/ui/background_pattern.rs:119-124 | every multiple m·s between the bounds is drawn, at position m - ceil(min/s) |
| Background.GridLinesSpaced | src/ui/background_pattern.rs:122-124 | consecutive lines are exactly one spacing apart, so the lines strictly increase |
| Background.GridLineCountBounded | src/ui/background_pattern.rs:119-122 | the line count is at most max(0, (max-min)/s + 1) and at least (max-min)/s - 1, wherever the bounds lie |
| Background.DrawGrid | src/ui/background_pattern.rs:97-150 | returns the scaled stroke, then the vertical lines and then the horizontal lines, one per index of each axis range, mapped to screen space |
| Background.VerticalSegmentsVisible | src/ui/background_pattern.rs:119-133 | every vertical line is drawn at one screen x inside the screen rect |
| Background.HorizontalSegmentsVisible | src/ui/background_pattern.rs:135-149 | every horizontal line is drawn at one screen y inside the screen rect |
| Background.Draw | src/ui/background_pattern.rs:233-239 | `Grid` draws its grid, `Custom` calls its callback, `NoPattern` draws nothing |
| GraphEvents.RemoveHoveredWire | src/ui/events.rs:14-21 | computes the default policy: secondary click on the background |
| GraphEvents.StartSelectArea | src/ui/events.rs:23-30 | computes the default policy: primary drag start with Shift held |
| GraphEvents.StopSelectArea | src/ui/events.rs:32-39 | computes the default policy: primary drag stop |
| GraphEvents.MoveArea | src/ui/events.rs:41-44 | computes the default policy: primary drag |
| GraphEvents.MoveAreaDelta | src/ui/events.rs:46-49 | computes the default policy: the negated drag delta |
| GraphEvents.CancelNewWire | src/ui/events.rs:51-58 | computes the default policy: the secondary button is held down |
| GraphEvents.DoCentering | src/ui/events.rs:60-63 | computes the default policy: double click |
| GraphEvents.DeselectAllNodes | src/ui/events.rs:65-72 | computes the default policy: command held and a primary click |
| GraphEvents.NodeMove | src/ui/events.rs:74-79 | computes the default policy: primary drag with neither Shift nor command |
| GraphEvents.NodeMoveDelta | src/ui/events.rs:81-84 | computes the default policy: the drag delta |
| GraphEvents.SelectOneNode | src/ui/events.rs:86-90 | computes the default policy: primary click or primary drag, with Shift held |
| GraphEvents.DeselectOneNode | src/ui/events.rs:92-96 | computes the default policy: primary click or primary drag, with command held |
| GraphEvents.NotToTop | src/ui/events.rs:98-101 | computes the default policy: any click or any drag |
| GraphEvents.RemoveWire | src/ui/events.rs:103-106 | computes the default policy: secondary click |
| GraphEvents.StartDragWire | src/ui/events.rs:108-111 | computes the default policy: primary drag start |
| GraphEvents.StopDragWire | src/ui/events.rs:113-116 | computes the default policy: any drag stop |
| GraphEvents.StartNewWireOut | src/ui/events.rs:118-121 | computes the default policy: primary drag start with command held |
| GraphEvents.StartNewWireIn | src/ui/events.rs:123-126 | computes the default policy: primary drag start without command |
| GraphEvents.DropInputsPin | src/ui/events.rs:128-131 | computes the default policy: primary drag start with command held and Shift released |
| GraphEvents.NodeMoveStep | src/ui/events.rs:185-207 | computes the (new state, flag) pair of one `node_move` call (partners: NodeMoveTransitions, NodeMoveReportsState, NodeMoveNeverEntersWire, ClickGraphEvents.NodeMove) |
| GraphEvents.NodeMoveExcludesSelection | src/ui/events.rs:75-96 | default `node_move` never holds together with `select_one_node` or `deselect_one_node` |
| GraphEvents.NewWireSplitsDragStart | src/ui/events.rs:109-126 | `start_new_wire_out` and `start_new_wire_in` are exclusive, and their disjunction is `start_drag_wire` |
| GraphEvents.DropInputsStartsOutWire | src/ui/events.rs:119-131 | `drop_inputs_pin` implies `start_new_wire_out` and excludes `start_new_wire_in` |
| GraphEvents.BackgroundGestureTriggers | src/ui/events.rs:24-79 | `start_select_area` implies Shift and a primary drag start, and excludes `node_move`; `deselect_all_nodes` implies command and a primary click |
| GraphEvents.PanOppositeToNodeMove | src/ui/events.rs:46-84 | `move_area_delta` is the negated drag delta; `node_move_delta` is the drag delta unchanged |
| GraphEvents.WireRemovalHooksAgree | src/ui/events.rs:14-106 | `remove_hovered_wire` and `remove_wire` fire on the same trigger, a secondary click |
| GraphEvents.CancelIgnoresResponse | src/ui/events.rs:51-58 | `cancel_new_wire` depends only on the secondary button being held, not on the response |
| GraphEvents.NodeMoveTransitions | src/ui/events.rs:181-207 | from None: to Node and true iff no Shift, no command and a primary click; from Node: to None and false on Escape or a primary click, else stays and true; Wire: unchanged, false |
| GraphEvents.NodeMoveReportsState | src/ui/events.rs:181-207 | the returned flag always equals "the new state is Node" |
| GraphEvents.NodeMoveNeverEntersWire | src/ui/events.rs:164-207 | no transition reaches `Wire` from another state |
| GraphEvents.ClickThenEscape | src/ui/events.rs:185-203 | a plain primary click starts the node drag; later frames without a primary click keep it, returning true; Escape on such a frame ends it, returning false |
| GraphEvents.ClickGraphEvents.constructor | src/ui/events.rs:161-178 | the default drag state is None, and `Wire` is never the state |
| GraphEvents.ClickGraphEvents.NodeMove | src/ui/events.rs:181-208 | new `drag` and result follow the transition table; `drag != Wire` is kept; the result is `drag' == Node` |
| GraphEvents.ClickGraphEvents.NodeMoveDelta | src/ui/events.rs:210-216 | pointer delta iff `drag == Node`, else zero; `drag` unchanged |
| Demo.Inputs | examples/demo.rs:138-146 | computes the input count per node kind (partner: ArityTable) |
| Demo.Outputs | examples/demo.rs:148-156 | computes the output count per node kind (partner: ArityTable) |
| Demo.ConnectDefined | examples/demo.rs:89-99 | holds unless the source is a Sink or the target a Number or String, the `unreachable!` arms (partner: ConnectDefinedByArity) |
| Demo.Accepts | examples/demo.rs:100-119 | computes the match arms in source order: true for the arms that fall through, false for those that `return` (partners: AcceptsByTarget, RejectedPairs) |
| Demo.Rewire | examples/demo.rs:121-125 | computes the wires with every wire into `to` removed and `from -> to` added (partners: the three Rewire lemmas, Connect) |
| Demo.ArityTable | examples/demo.rs:138-156 | inputs/outputs: Sink 1/0, Number 0/1, String 0/1, ShowImage 1/1, ExprNode (1 + number of bindings)/1 |
| Demo.ConnectDefinedByArity | examples/demo.rs:87-99 | `connect` panics exactly when the source has no outputs or the target has no inputs (a Sink source, a Number or String target) |
| Demo.AcceptsByTarget | examples/demo.rs:100-119 | Sink accepts anything; ShowImage accepts only String; ExprNode accepts Number and ExprNode on any input, and String on input 0 only |
| Demo.RejectedPairs | examples/demo.rs:100-118 | Number→ShowImage, ShowImage→ShowImage, String→ExprNode on input ≠ 0, ShowImage→ExprNode and ExprNode→ShowImage are rejected |
| Demo.RewireSingleIncoming | examples/demo.rs:121-125 | after an accepted connect, exactly one wire enters `to`, and it comes from `from` |
| Demo.RewireOthersUnchanged | examples/demo.rs:121-125 | wires into every other input pin are unchanged |
| Demo.RewirePreservesSingleIncoming | examples/demo.rs:121-125 | if each input pin had at most one wire before, it still has at most one after |
| Demo.Connect | examples/demo.rs:87-126 | if `to.remotes` lists the wires into `to`: a rejected pair leaves the wires unchanged; an accepted one leaves exactly those of `Rewire` |
| SnarlGraph.Snarl.constructor | examples/demo.rs:829 | a new graph has no nodes and no wires |
| SnarlGraph.Snarl.Connect | examples/demo.rs:125 | adds the one wire `from -> to`, nodes unchanged |
| SnarlGraph.Snarl.Disconnect | examples/demo.rs:122 | removes the one wire `from -> to`, nodes unchanged |
| Demo.ExtendBindings | examples/demo.rs:608-624 | the old list stays a prefix; what is appended are names occurring as `Var`, none already bound, none twice; afterwards every `Var` name is bound |
| Demo.ExtendBindingsNoDuplicates | examples/demo.rs:608-624 | a list without duplicates stays without duplicates |
| Demo.ExtendBindingsIdempotent | examples/demo.rs:608-624 | a list that already binds every name is left unchanged |
| Demo.BindingIndex | examples/demo.rs:585-586 | for a bound name: the first position holding it |
| Demo.EvalVar | examples/demo.rs:584-589 | the `Var` case reads the argument at the name's binding index; with distinct names, that is the argument paired with the name |
| Demo.NewExprNode | examples/demo.rs:540-547 | text "0", empty bindings and values, `Val(0)`; the node invariant holds |
| Demo.ValidNodeEvaluates | examples/demo.rs:584-589 | in a node whose bindings come from its expression, names are distinct and every `Var` passes the lookup precondition |
| Demo.Vars | examples/demo.rs:608-624 | computes the set of names occurring as `Var` in the expression |
| Demo.EvalDefined | examples/demo.rs:584-589 | holds when every `Var` name is bound and has an argument at its binding index, so `unwrap` and the index cannot panic |
| Demo.ZipPrefix | examples/demo.rs:277-281 | computes the map after collecting the first k zipped pairs, a later pair overwriting an earlier one (partners: ZipPrefixKeys, ZipPrefixLookup) |
| Demo.CarriedValue | examples/demo.rs:286-292 | computes `values.get(name).unwrap_or(0.0)` over the full zip (partner: CarriedValueIsOldValue) |
| Demo.ZipPrefixKeys | examples/demo.rs:277-281 | the zipped map's keys are exactly the zipped names |
| Demo.ZipPrefixLookup | examples/demo.rs:277-281 | with distinct names, each name maps to its own value |
| Demo.CarriedValueIsOldValue | examples/demo.rs:277-294 | a name that was bound carries its old value; a new name gets 0 |
| Demo.Reparse | examples/demo.rs:273-294 | bindings become those of the new expression; values has the same length, and entry i is the carried value of `bindings[i]`; the node invariant holds |

## Left out

- Floating point: every f32/f64 value is a `real`, so there is no rounding, no NaN and no infinity. Because of that, `Grid`'s derived equality is reflexive here, while on a NaN field it is not. The saturating `as i64` cast of the line count is not modelled either.
- Rotation of the grid: `Rot2`, `rotate_bb` and the rotation of each line's endpoints (src/ui/background_pattern.rs:109-117, 126-127, 142-143) are trigonometric float code. The model draws the angle-0 grid, and the pattern-space bounds are the graph viewport itself. For an ordered screen rect (min <= max on both axes), this is exactly what `rotate_bb` returns at angle 0. For an unordered rect, `rotate_bb` would put min before max, and the model would not.
- Background.DrawGrid: the stroke's colour is reduced to one opacity factor, which `gamma_multiply` scales. `icon_width` is a positive parameter. The base stroke from the style or visuals is a parameter as well.
- Background.DrawGrid: grid spacing must be positive on both axes (`ValidGridInputs`), while `BackgroundPattern::grid` accepts any `Vec2`. A zero or negative spacing, which divides by zero or reverses the line range, is excluded.
- Background.Draw: the `CustomBackground` closure is opaque. The model records that it was called, not what it draws. `BackgroundPattern::custom` is the `Custom` constructor.
- The painter calls, the `println!` calls in `ClickGraphEvents`, the serde and egui-probe derives, and the `GraphEventsExtend` trait aliases.
- `Response` and `InputState` are abstract records. How egui derives `clicked()`, `dragged()` and `drag_stopped()` from per-button state is not modelled; they are independent fields.
- Trait dispatch: `GraphEvents` is a trait with default methods. Here the defaults are module functions, and `ClickGraphEvents` overrides only `NodeMove` and `NodeMoveDelta`.
- `Expr::eval` arithmetic, including division by zero, and `format_float`. Only the `Var` lookup and its precondition are modelled.
- The `syn`-based parser (examples/demo.rs:627-820). `Reparse` takes the already parsed expression; the parse-error branch leaves the node unchanged.
- The pin rewiring loop after a re-parse (examples/demo.rs:295-325). It needs `Snarl::in_pin` and `Snarl::drop_inputs`, which are not part of this model.
- Demo.Reparse: returns the updated `ExprNode` value rather than assigning the node's fields in place inside the graph.
- Widgets, menus, hover popups, `PinInfo`, colours, image loading, `DemoApp`, `main` and persistence.
