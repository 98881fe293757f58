/** The computation graph of the autodiff engine, stored as an arena.

    Python's `Node` objects refer to their operands by object identity; here a
    node refers to an operand by its index in the arena. Every operation appends
    its result after its operands, so each edge points to a strictly smaller
    index: the graph is acyclic by construction and the index is a termination
    measure for the backward sweep.
 */
module Graph {

  /** One entry of `Node.parents`: the operand and the local derivative of the
      owning node with respect to that operand. */
  datatype Edge = Edge(parent: nat, weight: real)

  /** The immutable part of a `Node`: its forward value, its recorded edges and
      its `requires_grad` flag. The mutable gradient lives in `Tape.grads`. */
  datatype Node = Node(value: real, parents: seq<Edge>, requiresGrad: bool)

  /** All nodes built so far, in construction order, with their gradients. */
  datatype Tape = Tape(nodes: seq<Node>, grads: seq<real>)

  /** Every edge in `es` points to an index below `bound`. */
  predicate PointBelow(es: seq<Edge>, bound: nat)
  {
    forall k :: 0 <= k < |es| ==> es[k].parent < bound
  }

  /** Every node's edges point to earlier nodes only. */
  predicate Acyclic(nodes: seq<Node>)
  {
    forall i :: 0 <= i < |nodes| ==> PointBelow(nodes[i].parents, i)
  }

  /** A well-formed arena: acyclic, one gradient per node. */
  predicate Valid(t: Tape)
  {
    Acyclic(t.nodes) && |t.grads| == |t.nodes|
  }
}
