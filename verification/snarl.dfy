/**
 * The graph's wire store, as the connection policy of examples/demo.rs
 * uses it. `Snarl` itself (src/snarl.rs) is not part of this model: its
 * `connect` is taken to insert one (output pin, input pin) pair into a set
 * of wires and its `disconnect` to remove one.
 */
module SnarlGraph {

  type NodeId = nat

  /** `OutPinId`: a node's output by index. */
  datatype OutPinId = OutPinId(node: NodeId, output: nat)

  /** `InPinId`: a node's input by index. */
  datatype InPinId = InPinId(node: NodeId, input: nat)

  /** A wire from an output pin to an input pin. */
  datatype Wire = Wire(out: OutPinId, inp: InPinId)

  /** `OutPin`: an output pin and the inputs wired to it. */
  datatype OutPin = OutPin(id: OutPinId, remotes: seq<InPinId>)

  /** `InPin`: an input pin and the outputs wired to it. */
  datatype InPin = InPin(id: InPinId, remotes: seq<OutPinId>)

  /** The output pins wired into `pin`. */
  function Remotes(wires: set<Wire>, pin: InPinId): set<OutPinId> {
    set w | w in wires && w.inp == pin :: w.out
  }

  /** The single-incoming-wire invariant: every input pin has at most one wire. */
  ghost predicate AtMostOneIncoming(wires: set<Wire>) {
    forall w1, w2 :: w1 in wires && w2 in wires && w1.inp == w2.inp ==> w1 == w2
  }

  /** The node storage and the wires of a graph. */
  class Snarl<T> {
    var nodes: map<NodeId, T>
    var wires: set<Wire>

    /** `Snarl::new()`: no nodes, no wires. */
    constructor ()
      ensures nodes == map[] && wires == {}
    {
      nodes := map[];
      wires := {};
    }

    /** `Snarl::connect`: add the wire `from -> to`. */
    method Connect(from: OutPinId, to: InPinId)
      modifies this
      ensures wires == old(wires) + {Wire(from, to)}
      ensures nodes == old(nodes)
    {
      wires := wires + {Wire(from, to)};
    }

    /** `Snarl::disconnect`: remove the wire `from -> to`, if present. */
    method Disconnect(from: OutPinId, to: InPinId)
      modifies this
      ensures wires == old(wires) - {Wire(from, to)}
      ensures nodes == old(nodes)
    {
      wires := wires - {Wire(from, to)};
    }
  }
}
