/**
 * The input-gesture policy (src/ui/events.rs).
 *
 * Each default method of `GraphEvents` is a predicate (or a delta) over
 * one widget's `Response` and the frame's `InputState`. Both egui types are
 * abstracted to the queries the policy makes of them. The default methods
 * never touch `self`, so they are modelled as functions; `DefaultGraphEvents`
 * uses all of them unchanged, and so does `ClickGraphEvents` except for
 * `node_move` and `node_move_delta`, which it overrides with a small state
 * machine over `ItemDragged`.
 */
module GraphEvents {
  import opened Geometry

  datatype PointerButton = Primary | Secondary | Middle | Extra1 | Extra2

  /**
   * The queries the policy makes of an egui `Response`: the buttons that
   * clicked, dragged, started or stopped a drag this frame, the
   * button-agnostic `clicked()`, `dragged()` and `drag_stopped()`,
   * `double_clicked()` and `drag_delta()`.
   */
  datatype Response = Response(
    clickedBy: set<PointerButton>,
    draggedBy: set<PointerButton>,
    dragStartedBy: set<PointerButton>,
    dragStoppedBy: set<PointerButton>,
    clicked: bool,
    dragged: bool,
    dragStopped: bool,
    doubleClicked: bool,
    dragDelta: Vec2)

  /** Modifier keys held this frame. */
  datatype Modifiers = Modifiers(shift: bool, command: bool)

  /**
   * The queries the policy makes of an egui `InputState`: modifiers, the
   * pointer buttons held down, whether Escape was pressed this frame and
   * the pointer's movement since the last frame.
   */
  datatype InputState = InputState(
    modifiers: Modifiers,
    buttonsDown: set<PointerButton>,
    escapePressed: bool,
    pointerDelta: Vec2)

  // ---- Background-level gestures ----

  /** `remove_hovered_wire`: secondary click on the background. */
  predicate RemoveHoveredWire(r: Response, i: InputState) {
    Secondary in r.clickedBy
  }

  /** `start_select_area`: primary drag start with Shift held. */
  predicate StartSelectArea(r: Response, i: InputState) {
    Primary in r.dragStartedBy && i.modifiers.shift
  }

  /** `stop_select_area`: primary drag stop. */
  predicate StopSelectArea(r: Response, i: InputState) {
    Primary in r.dragStoppedBy
  }

  /** `move_area`: primary drag, whatever the modifiers. */
  predicate MoveArea(r: Response, i: InputState) {
    Primary in r.draggedBy
  }

  /** `move_area_delta`: the negated drag delta. */
  function MoveAreaDelta(r: Response, i: InputState): Vec2 {
    Neg(r.dragDelta)
  }

  /** `cancel_new_wire`: the secondary button is held down. */
  predicate CancelNewWire(r: Response, i: InputState) {
    Secondary in i.buttonsDown
  }

  /** `do_centering`: double click on the background. */
  predicate DoCentering(r: Response, i: InputState) {
    r.doubleClicked
  }

  /** `deselect_all_nodes`: command held and a primary click. */
  predicate DeselectAllNodes(r: Response, i: InputState) {
    i.modifiers.command && Primary in r.clickedBy
  }

  // ---- Node-level gestures ----

  /** `node_move` (default): primary drag with neither Shift nor command. */
  predicate NodeMove(r: Response, i: InputState) {
    !i.modifiers.shift && !i.modifiers.command && Primary in r.draggedBy
  }

  /** `node_move_delta` (default): the drag delta. */
  function NodeMoveDelta(r: Response, i: InputState): Vec2 {
    r.dragDelta
  }

  /** `select_one_node`: primary click or drag with Shift held. */
  predicate SelectOneNode(r: Response, i: InputState) {
    (Primary in r.clickedBy || Primary in r.draggedBy) && i.modifiers.shift
  }

  /** `deselect_one_node`: primary click or drag with command held. */
  predicate DeselectOneNode(r: Response, i: InputState) {
    (Primary in r.clickedBy || Primary in r.draggedBy) && i.modifiers.command
  }

  /** `not_to_top`: any click or drag. */
  predicate NotToTop(r: Response, i: InputState) {
    r.clicked || r.dragged
  }

  // ---- Pin- and wire-level gestures ----

  /** `remove_wire`: secondary click. */
  predicate RemoveWire(r: Response, i: InputState) {
    Secondary in r.clickedBy
  }

  /** `start_drag_wire`: primary drag start. */
  predicate StartDragWire(r: Response, i: InputState) {
    Primary in r.dragStartedBy
  }

  /** `stop_drag_wire`: any drag stop. */
  predicate StopDragWire(r: Response, i: InputState) {
    r.dragStopped
  }

  /** `start_new_wire_out`: primary drag start with command held. */
  predicate StartNewWireOut(r: Response, i: InputState) {
    Primary in r.dragStartedBy && i.modifiers.command
  }

  /** `start_new_wire_in`: primary drag start without command. */
  predicate StartNewWireIn(r: Response, i: InputState) {
    Primary in r.dragStartedBy && !i.modifiers.command
  }

  /** `drop_inputs_pin`: primary drag start with command held and Shift released. */
  predicate DropInputsPin(r: Response, i: InputState) {
    Primary in r.dragStartedBy && i.modifiers.command && !i.modifiers.shift
  }

  // ---- Properties of the default policy ----

  /** Moving a node never fires together with adding it to or removing it from the selection. */
  lemma NodeMoveExcludesSelection(r: Response, i: InputState)
    ensures !(NodeMove(r, i) && SelectOneNode(r, i))
    ensures !(NodeMove(r, i) && DeselectOneNode(r, i))
  {
  }

  /** Starting an outgoing and an incoming wire are exclusive, and together they are a wire drag start. */
  lemma NewWireSplitsDragStart(r: Response, i: InputState)
    ensures !(StartNewWireOut(r, i) && StartNewWireIn(r, i))
    ensures StartNewWireOut(r, i) || StartNewWireIn(r, i) <==> StartDragWire(r, i)
  {
  }

  /** Dropping a pin's inputs is a special case of starting an outgoing wire, never of an incoming one. */
  lemma DropInputsStartsOutWire(r: Response, i: InputState)
    ensures DropInputsPin(r, i) ==> StartNewWireOut(r, i) && !StartNewWireIn(r, i)
  {
  }

  /** Box selection needs Shift and a primary drag start; deselect-all needs command and a primary click. */
  lemma BackgroundGestureTriggers(r: Response, i: InputState)
    ensures StartSelectArea(r, i) ==> i.modifiers.shift && Primary in r.dragStartedBy
    ensures DeselectAllNodes(r, i) ==> i.modifiers.command && Primary in r.clickedBy
    ensures StartSelectArea(r, i) ==> !NodeMove(r, i) && StartDragWire(r, i)
  {
  }

  /** Panning moves the canvas opposite to the drag that would move a node. */
  lemma PanOppositeToNodeMove(r: Response, i: InputState)
    ensures Add(MoveAreaDelta(r, i), NodeMoveDelta(r, i)) == Zero
    ensures NodeMoveDelta(r, i) == r.dragDelta
  {
  }

  /** The two wire-removal hooks share one trigger: a secondary click. */
  lemma WireRemovalHooksAgree(r: Response, i: InputState)
    ensures RemoveHoveredWire(r, i) == RemoveWire(r, i) == (Secondary in r.clickedBy)
  {
  }

  /** Cancelling a new wire depends only on the secondary button being held, not on the response. */
  lemma CancelIgnoresResponse(r: Response, r': Response, i: InputState)
    ensures CancelNewWire(r, i) == CancelNewWire(r', i) == (Secondary in i.buttonsDown)
  {
  }

  // ---- ClickGraphEvents ----

  /** `ItemDragged`: what a click-based drag currently holds. */
  datatype ItemDragged = None | Node | Wire

  /**
   * One call of `ClickGraphEvents::node_move` as a transition: the new drag
   * state and the returned flag.
   */
  function NodeMoveStep(drag: ItemDragged, r: Response, i: InputState): (ItemDragged, bool) {
    match drag
    case None =>
      if !i.modifiers.shift && !i.modifiers.command && Primary in r.clickedBy then (Node, true)
      else (None, false)
    case Node =>
      if i.escapePressed || Primary in r.clickedBy then (None, false)
      else (Node, true)
    case Wire => (Wire, false)
  }

  /** The transition table of `node_move`, state by state. */
  lemma NodeMoveTransitions(r: Response, i: InputState)
    ensures var start := !i.modifiers.shift && !i.modifiers.command && Primary in r.clickedBy;
            NodeMoveStep(None, r, i) == if start then (Node, true) else (None, false)
    ensures var stop := i.escapePressed || Primary in r.clickedBy;
            NodeMoveStep(Node, r, i) == if stop then (None, false) else (Node, true)
    ensures NodeMoveStep(Wire, r, i) == (Wire, false)
  {
  }

  /** The flag returned is exactly "the new state is Node". */
  lemma NodeMoveReportsState(d: ItemDragged, r: Response, i: InputState)
    ensures NodeMoveStep(d, r, i).1 <==> NodeMoveStep(d, r, i).0 == Node
  {
  }

  /** No transition enters `Wire`. */
  lemma NodeMoveNeverEntersWire(d: ItemDragged, r: Response, i: InputState)
    ensures d != Wire ==> NodeMoveStep(d, r, i).0 != Wire
  {
  }

  /**
   * The scenario: a plain click starts the drag; frames without a primary
   * click keep it; Escape on a later frame, with no click, ends it.
   */
  lemma ClickThenEscape(click: Response, later: Response, plain: InputState, esc: InputState)
    requires Primary in click.clickedBy && Primary !in later.clickedBy
    requires !plain.modifiers.shift && !plain.modifiers.command && !plain.escapePressed
    requires esc.escapePressed
    ensures NodeMoveStep(None, click, plain) == (Node, true)
    ensures NodeMoveStep(Node, later, plain) == (Node, true)
    ensures NodeMoveStep(Node, later, esc) == (None, false)
  {
  }

  /** `ClickGraphEvents`: the click-based policy with its drag state. */
  class ClickGraphEvents {
    var drag: ItemDragged

    /** No method ever stores `Wire`, so it is never the state. */
    ghost predicate Valid()
      reads this
    {
      drag != Wire
    }

    /** `ClickGraphEvents::default()`. */
    constructor ()
      ensures drag == None && Valid()
    {
      drag := None;
    }

    /** `node_move`: advance the state machine by one frame. */
    method NodeMove(r: Response, i: InputState) returns (moving: bool)
      modifies this
      ensures (drag, moving) == NodeMoveStep(old(drag), r, i)
      ensures old(Valid()) ==> Valid()
      ensures moving <==> drag == Node
    {
      match drag {
        case None =>
          if !i.modifiers.shift && !i.modifiers.command && Primary in r.clickedBy {
            drag := Node;
            moving := true;
          } else {
            moving := false;
          }
        case Node =>
          if i.escapePressed || Primary in r.clickedBy {
            drag := None;
            moving := false;
          } else {
            moving := true;
          }
        case Wire =>
          moving := false;
      }
    }

    /** `node_move_delta`: the pointer's movement while dragging a node, else zero. */
    method NodeMoveDelta(r: Response, i: InputState) returns (delta: Vec2)
      ensures drag == Node ==> delta == i.pointerDelta
      ensures drag != Node ==> delta == Zero
    {
      if drag == Node {
        delta := i.pointerDelta;
      } else {
        delta := Zero;
      }
    }
  }
}
