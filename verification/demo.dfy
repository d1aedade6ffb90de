/**
 * The demo application's node kinds, its connection policy and the
 * variable bindings of its expression node (examples/demo.rs).
 */
module Demo {
  import opened SnarlGraph

  // ---- Expressions ----

  datatype UnOp = Pos | Neg

  datatype BinOp = Add | Sub | Mul | Div

  /** `Expr`: the parsed expression of an expression node. */
  datatype Expr =
    | Var(name: string)
    | Val(value: real)
    | UnOp(unop: UnOp, expr: Expr)
    | BinOp(lhs: Expr, binop: BinOp, rhs: Expr)

  /** The variable names occurring in an expression. */
  function Vars(e: Expr): set<string> {
    match e
    case Var(n) => {n}
    case Val(_) => {}
    case UnOp(_, x) => Vars(x)
    case BinOp(l, _, r) => Vars(l) + Vars(r)
  }

  predicate NoDuplicates(s: seq<string>) {
    forall j, k :: 0 <= j < k < |s| ==> s[j] != s[k]
  }

  /**
   * `Expr::extend_bindings`: walk the expression left to right and append
   * every variable name not yet in the list. The old list stays a prefix;
   * what is appended is the expression's names not already bound, each once;
   * afterwards every name of the expression is bound.
   */
  function ExtendBindings(e: Expr, bindings: seq<string>): (r: seq<string>)
    ensures |bindings| <= |r| && r[..|bindings|] == bindings
    ensures forall n :: n in Vars(e) ==> n in r
    ensures forall k :: |bindings| <= k < |r| ==> r[k] in Vars(e) && r[k] !in bindings
    ensures forall j, k :: |bindings| <= j < k < |r| ==> r[j] != r[k]
    decreases e
  {
    match e
    case Var(n) => if n in bindings then bindings else bindings + [n]
    case Val(_) => bindings
    case UnOp(_, x) => ExtendBindings(x, bindings)
    case BinOp(l, _, rhs) =>
      var mid := ExtendBindings(l, bindings);
      var r := ExtendBindings(rhs, mid);
      assert forall n :: n in mid ==> n in r by {
        assert r[..|mid|] == mid;
        forall n | n in mid ensures n in r {
          var j :| 0 <= j < |mid| && mid[j] == n;
          assert r[j] == n;
        }
      }
      assert forall k :: |bindings| <= k < |mid| ==> r[k] == mid[k];
      r
  }

  /** Extending a list without duplicates gives a list without duplicates. */
  lemma {:induction false} ExtendBindingsNoDuplicates(e: Expr, bindings: seq<string>)
    requires NoDuplicates(bindings)
    ensures NoDuplicates(ExtendBindings(e, bindings))
  {
    var r := ExtendBindings(e, bindings);
    forall j, k | 0 <= j < k < |r| ensures r[j] != r[k] {
      if k < |bindings| {
        assert r[j] == bindings[j] && r[k] == bindings[k];
      } else if j < |bindings| {
        assert r[j] == bindings[j];
      }
    }
  }

  /** Extending an already complete list changes nothing. */
  lemma ExtendBindingsIdempotent(e: Expr, bindings: seq<string>)
    requires forall n :: n in Vars(e) ==> n in bindings
    ensures ExtendBindings(e, bindings) == bindings
  {
  }

  /**
   * `binding_index` inside `Expr::eval`: the first position of `name`.
   * The source unwraps the search, so the name must be bound.
   */
  function BindingIndex(bindings: seq<string>, name: string): (i: nat)
    requires name in bindings
    ensures i < |bindings| && bindings[i] == name
    ensures forall j :: 0 <= j < i ==> bindings[j] != name
  {
    if bindings[0] == name then 0 else 1 + BindingIndex(bindings[1..], name)
  }

  /** The `Var` case of `Expr::eval`: the argument at the name's binding index. */
  function EvalVar(name: string, bindings: seq<string>, args: seq<real>): (v: real)
    requires name in bindings && BindingIndex(bindings, name) < |args|
    ensures NoDuplicates(bindings) ==>
              forall k :: 0 <= k < |bindings| && k < |args| && bindings[k] == name ==> v == args[k]
  {
    args[BindingIndex(bindings, name)]
  }

  /** Every variable of `e` can be looked up: bound, and with an argument at its index. */
  ghost predicate EvalDefined(e: Expr, bindings: seq<string>, args: seq<real>) {
    forall n :: n in Vars(e) ==> n in bindings && BindingIndex(bindings, n) < |args|
  }

  // ---- Expression nodes ----

  /** `ExprNode`: the text, the bound names with their values, and the parsed expression. */
  datatype ExprNode = ExprNode(text: string, bindings: seq<string>, values: seq<real>, expr: Expr)

  /** The bindings are those of the expression, one value each. */
  ghost predicate ValidExprNode(n: ExprNode) {
    n.bindings == ExtendBindings(n.expr, []) && |n.values| == |n.bindings|
  }

  /** `ExprNode::new()`: text "0", nothing bound, the constant 0. */
  function NewExprNode(): (n: ExprNode)
    ensures ValidExprNode(n)
    ensures n.text == "0" && n.bindings == [] && n.values == [] && n.expr == Val(0.0)
  {
    ExprNode.ExprNode("0", [], [], Val(0.0))
  }

  /** In a valid node every variable of the expression can be evaluated, and the names are distinct. */
  lemma ValidNodeEvaluates(n: ExprNode)
    requires ValidExprNode(n)
    ensures NoDuplicates(n.bindings)
    ensures EvalDefined(n.expr, n.bindings, n.values)
  {
    ExtendBindingsNoDuplicates(n.expr, []);
  }

  /**
   * The map `zip(bindings, values).collect::<HashMap<_, _>>()` after its
   * first `k` pairs: later pairs overwrite earlier ones.
   */
  function ZipPrefix(bs: seq<string>, vs: seq<real>, k: nat): map<string, real>
    requires k <= |bs| && k <= |vs|
  {
    if k == 0 then map[] else ZipPrefix(bs, vs, k - 1)[bs[k - 1] := vs[k - 1]]
  }

  /** `zip` stops at the shorter sequence. */
  function ZipLength(bs: seq<string>, vs: seq<real>): nat {
    if |bs| <= |vs| then |bs| else |vs|
  }

  /** The value a re-parse carries over for `name`: its old value, else 0. */
  function CarriedValue(bs: seq<string>, vs: seq<real>, name: string): real {
    var m := ZipPrefix(bs, vs, ZipLength(bs, vs));
    if name in m then m[name] else 0.0
  }

  /** The keys of the zipped map are exactly the first `k` names. */
  lemma {:induction false} ZipPrefixKeys(bs: seq<string>, vs: seq<real>, k: nat)
    requires k <= |bs| && k <= |vs|
    ensures ZipPrefix(bs, vs, k).Keys == set j | 0 <= j < k :: bs[j]
  {
    if k > 0 {
      ZipPrefixKeys(bs, vs, k - 1);
    }
  }

  /** With distinct names, each name maps to its own value. */
  lemma {:induction false} ZipPrefixLookup(bs: seq<string>, vs: seq<real>, k: nat, j: nat)
    requires k <= |bs| && k <= |vs| && NoDuplicates(bs) && j < k
    ensures bs[j] in ZipPrefix(bs, vs, k) && ZipPrefix(bs, vs, k)[bs[j]] == vs[j]
  {
    if j < k - 1 {
      ZipPrefixLookup(bs, vs, k - 1, j);
    }
  }

  /**
   * For a valid node's bindings and values, the carried value of a name is
   * its old value when it was bound, and 0 otherwise.
   */
  lemma {:induction false} CarriedValueIsOldValue(bs: seq<string>, vs: seq<real>, name: string)
    requires NoDuplicates(bs) && |bs| == |vs|
    ensures forall j :: 0 <= j < |bs| && bs[j] == name ==> CarriedValue(bs, vs, name) == vs[j]
    ensures name !in bs ==> CarriedValue(bs, vs, name) == 0.0
  {
    forall j | 0 <= j < |bs| && bs[j] == name
      ensures CarriedValue(bs, vs, name) == vs[j]
    {
      ZipPrefixLookup(bs, vs, |bs|, j);
    }
    ZipPrefixKeys(bs, vs, |bs|);
  }

  /**
   * The successful re-parse of an expression node's text: the node takes the
   * new expression, its bindings become those of the new expression, and
   * each binding keeps the value it had under the same name, or 0.
   */
  method Reparse(node: ExprNode, expr: Expr) returns (r: ExprNode)
    ensures r.text == node.text && r.expr == expr
    ensures r.bindings == ExtendBindings(expr, [])
    ensures |r.values| == |r.bindings|
    ensures forall k :: 0 <= k < |r.values| ==>
              r.values[k] == CarriedValue(node.bindings, node.values, r.bindings[k])
    ensures ValidExprNode(r)
  {
    var values: map<string, real> := map[];
    var n := ZipLength(node.bindings, node.values);
    for k := 0 to n
      invariant values == ZipPrefix(node.bindings, node.values, k)
    {
      values := values[node.bindings[k] := node.values[k]];
    }

    var newBindings := ExtendBindings(expr, []);

    var newValues: seq<real> := [];
    for k := 0 to |newBindings|
      invariant |newValues| == k
      invariant forall j :: 0 <= j < k ==>
                  newValues[j] == if newBindings[j] in values then values[newBindings[j]] else 0.0
    {
      var name := newBindings[k];
      newValues := newValues + [if name in values then values[name] else 0.0];
    }

    r := node.(expr := expr, bindings := newBindings, values := newValues);
  }

  // ---- Node kinds and the connection policy ----

  /** `DemoNode`: the demo's node kinds. */
  datatype DemoNode =
    | Sink
    | Number(value: real)
    | String(text: string)
    | ShowImage(uri: string)
    | ExprNode(node: ExprNode)

  /** `DemoViewer::inputs`. */
  function Inputs(node: DemoNode): nat {
    match node
    case Sink => 1
    case Number(_) => 0
    case String(_) => 0
    case ShowImage(_) => 1
    case ExprNode(e) => 1 + |e.bindings|
  }

  /** `DemoViewer::outputs`. */
  function Outputs(node: DemoNode): nat {
    match node
    case Sink => 0
    case Number(_) => 1
    case String(_) => 1
    case ShowImage(_) => 1
    case ExprNode(_) => 1
  }

  /** The arity table: (inputs, outputs) per node kind. */
  lemma ArityTable(v: real, s: string, e: ExprNode)
    ensures Inputs(Sink) == 1 && Outputs(Sink) == 0
    ensures Inputs(Number(v)) == 0 && Outputs(Number(v)) == 1
    ensures Inputs(String(s)) == 0 && Outputs(String(s)) == 1
    ensures Inputs(ShowImage(s)) == 1 && Outputs(ShowImage(s)) == 1
    ensures Inputs(DemoNode.ExprNode(e)) == 1 + |e.bindings| && Outputs(DemoNode.ExprNode(e)) == 1
  {
  }

  /**
   * `connect` reaches `unreachable!` for a Sink source or a Number or String
   * target; every other pair is decided.
   */
  predicate ConnectDefined(from: DemoNode, to: DemoNode) {
    !from.Sink? && !to.Number? && !to.String?
  }

  /** The pairs `connect` panics on are exactly those where a pin cannot exist. */
  lemma ConnectDefinedByArity(from: DemoNode, to: DemoNode)
    ensures ConnectDefined(from, to) <==> Outputs(from) > 0 && Inputs(to) > 0
  {
  }

  /** The accept/reject decision of `DemoViewer::connect`, in the order of its match arms. */
  function Accepts(from: DemoNode, to: DemoNode, input: nat): bool
    requires ConnectDefined(from, to)
  {
    match (from, to)
    case (_, Sink) => true
    case (Number(_), ShowImage(_)) => false
    case (ShowImage(_), ShowImage(_)) => false
    case (String(_), ShowImage(_)) => true
    case (ExprNode(_), ExprNode(_)) => true
    case (Number(_), ExprNode(_)) => true
    case (String(_), ExprNode(_)) => input == 0
    case (ShowImage(_), ExprNode(_)) => false
    case (ExprNode(_), ShowImage(_)) => false
    // A Sink source or a Number or String target: excluded by the precondition.
    case _ => false
  }

  /**
   * The decision by target: a Sink takes anything; a ShowImage takes only a
   * String; an expression node takes numbers and expressions on any input
   * and a String on its text input 0.
   */
  lemma AcceptsByTarget(from: DemoNode, to: DemoNode, input: nat)
    requires ConnectDefined(from, to)
    ensures Accepts(from, to, input) <==>
              || to.Sink?
              || (to.ShowImage? && from.String?)
              || (to.ExprNode? && (from.Number? || from.ExprNode? || (from.String? && input == 0)))
  {
  }

  /** The rejected pairs. */
  lemma RejectedPairs(from: DemoNode, to: DemoNode, input: nat)
    requires ConnectDefined(from, to)
    requires || (from.Number? && to.ShowImage?)
             || (from.ShowImage? && to.ShowImage?)
             || (from.String? && to.ExprNode? && input != 0)
             || (from.ShowImage? && to.ExprNode?)
             || (from.ExprNode? && to.ShowImage?)
    ensures !Accepts(from, to, input)
  {
  }

  /** The wires after an accepted connection: every wire into `to` replaced by `from -> to`. */
  function Rewire(wires: set<Wire>, from: OutPinId, to: InPinId): set<Wire> {
    (set w | w in wires && w.inp != to) + {Wire(from, to)}
  }

  /** After rewiring, exactly one wire enters `to`, and it comes from `from`. */
  lemma {:induction false} RewireSingleIncoming(wires: set<Wire>, from: OutPinId, to: InPinId)
    ensures Remotes(Rewire(wires, from, to), to) == {from}
  {
    var r := Rewire(wires, from, to);
    assert Wire(from, to) in r;
    forall o | o in Remotes(r, to) ensures o == from {
      var w :| w in r && w.inp == to && w.out == o;
    }
  }

  /** Rewiring leaves the wires into every other input pin as they were. */
  lemma {:induction false} RewireOthersUnchanged(wires: set<Wire>, from: OutPinId, to: InPinId, pin: InPinId)
    requires pin != to
    ensures Remotes(Rewire(wires, from, to), pin) == Remotes(wires, pin)
  {
    var r := Rewire(wires, from, to);
    forall o | o in Remotes(wires, pin) ensures o in Remotes(r, pin) {
      var w :| w in wires && w.inp == pin && w.out == o;
      assert w in r;
    }
  }

  /** Rewiring keeps every input pin at one wire at most. */
  lemma RewirePreservesSingleIncoming(wires: set<Wire>, from: OutPinId, to: InPinId)
    requires AtMostOneIncoming(wires)
    ensures AtMostOneIncoming(Rewire(wires, from, to))
  {
  }

  /**
   * `DemoViewer::connect`. `to.remotes` must list exactly the outputs wired
   * into `to` (the graph hands it over that way). A rejected pair leaves the
   * graph alone; an accepted one disconnects every remote of `to`, then
   * connects `from -> to`.
   */
  method Connect(from: OutPin, to: InPin, snarl: Snarl<DemoNode>)
    requires from.id.node in snarl.nodes && to.id.node in snarl.nodes
    requires ConnectDefined(snarl.nodes[from.id.node], snarl.nodes[to.id.node])
    requires (set o | o in to.remotes) == Remotes(snarl.wires, to.id)
    modifies snarl
    ensures snarl.nodes == old(snarl.nodes)
    ensures Accepts(snarl.nodes[from.id.node], snarl.nodes[to.id.node], to.id.input) ==>
              snarl.wires == Rewire(old(snarl.wires), from.id, to.id)
    ensures !Accepts(snarl.nodes[from.id.node], snarl.nodes[to.id.node], to.id.input) ==>
              snarl.wires == old(snarl.wires)
  {
    if !Accepts(snarl.nodes[from.id.node], snarl.nodes[to.id.node], to.id.input) {
      return;
    }

    for j := 0 to |to.remotes|
      invariant snarl.nodes == old(snarl.nodes)
      invariant forall w :: w in snarl.wires <==>
                  w in old(snarl.wires) && !(w.inp == to.id && w.out in to.remotes[..j])
    {
      snarl.Disconnect(to.remotes[j], to.id);
    }
    assert forall w :: w in snarl.wires <==> w in old(snarl.wires) && w.inp != to.id by {
      assert to.remotes[..|to.remotes|] == to.remotes;
      forall w | w in old(snarl.wires) && w.inp == to.id ensures w.out in to.remotes {
        assert w.out in Remotes(old(snarl.wires), to.id);
      }
    }

    snarl.Connect(from.id, to.id);
  }
}
