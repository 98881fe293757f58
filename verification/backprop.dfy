/** `Node.backward`: the reverse-mode sweep, and what it computes.

    The sweep follows the source's recursion, with the seed a value fixed at
    each call: a participating node adds the seed into its own gradient, then
    calls backward on each parent in order with the seed times the edge
    weight; a non-participating node does nothing at all, so no gradient
    flows through it either.
    `PathSum` is the reference: the derivative of one node with respect to
    another, summed over all paths of participating nodes between them. */
module Backprop {
  import opened Graph

  /** `Node.backward(seed)` on node `i`, returning the updated gradients. */
  function Backward(nodes: seq<Node>, grads: seq<real>, i: nat, seed: real): (r: seq<real>)
    requires Acyclic(nodes) && |grads| == |nodes| && i < |nodes|
    ensures |r| == |grads|
    ensures !nodes[i].requiresGrad ==> r == grads
    ensures nodes[i].requiresGrad ==> r[i] == grads[i] + seed
    ensures forall j :: i < j < |r| ==> r[j] == grads[j]
    decreases i, 1, 0
  {
    if !nodes[i].requiresGrad then grads
    else Propagate(nodes, grads[i := grads[i] + seed], i, nodes[i].parents, seed)
  }

  /** The loop over `self.parents` in `Node.backward`: each edge `(p, w)` in
      turn runs the sweep from `p` with seed `seed * w`. `below` bounds the
      parents and only serves as the termination measure. */
  function Propagate(nodes: seq<Node>, grads: seq<real>, below: nat, es: seq<Edge>, seed: real): (r: seq<real>)
    requires Acyclic(nodes) && |grads| == |nodes| && below <= |nodes| && PointBelow(es, below)
    ensures |r| == |grads|
    ensures forall j :: below <= j < |r| ==> r[j] == grads[j]
    decreases below, 0, |es|
  {
    if es == [] then grads
    else Propagate(nodes, Backward(nodes, grads, es[0].parent, seed * es[0].weight), below, es[1..], seed)
  }

  /** `node.backward(seed)` on an arena: only the gradients change. */
  function BackwardOn(t: Tape, i: nat, seed: real): (r: Tape)
    requires Valid(t) && i < |t.nodes|
    ensures Valid(r) && r.nodes == t.nodes
  {
    Tape(t.nodes, Backward(t.nodes, t.grads, i, seed))
  }

  /** The derivative of node `i` with respect to node `j` along participating
      paths: the sum, over all paths from `i` down to `j` whose nodes all have
      `requiresGrad`, of the product of the edge weights on the path. */
  ghost function PathSum(nodes: seq<Node>, i: nat, j: nat): real
    requires Acyclic(nodes) && i < |nodes|
    decreases i, 1, 0
  {
    if !nodes[i].requiresGrad then 0.0
    else (if i == j then 1.0 else 0.0) + EdgePathSum(nodes, i, nodes[i].parents, j)
  }

  /** The paths that leave through one of the edges `es`: each edge's weight
      times the path sum from its parent. */
  ghost function EdgePathSum(nodes: seq<Node>, below: nat, es: seq<Edge>, j: nat): real
    requires Acyclic(nodes) && below <= |nodes| && PointBelow(es, below)
    decreases below, 0, |es|
  {
    if es == [] then 0.0
    else es[0].weight * PathSum(nodes, es[0].parent, j) + EdgePathSum(nodes, below, es[1..], j)
  }

  /** The chain rule: one backward sweep from `i` with seed `s` raises the
      gradient of every node `j` by `s` times the path sum from `i` to `j`. */
  lemma {:induction false} BackwardIsChainRule(nodes: seq<Node>, grads: seq<real>, i: nat, s: real, j: nat)
    requires Acyclic(nodes) && |grads| == |nodes| && i < |nodes| && j < |nodes|
    ensures Backward(nodes, grads, i, s)[j] == grads[j] + s * PathSum(nodes, i, j)
    decreases i, 1, 0
  {
    if nodes[i].requiresGrad {
      var g' := grads[i := grads[i] + s];
      PropagateIsChainRule(nodes, g', i, nodes[i].parents, s, j);
      SeededEdgePathSumScales(nodes, i, nodes[i].parents, s, j);
    }
  }

  /** The loop over the edges `es` adds, for each edge, the seed it passes
      on times the path sum from its parent. */
  lemma {:induction false} PropagateIsChainRule(nodes: seq<Node>, grads: seq<real>, below: nat, es: seq<Edge>, s: real, j: nat)
    requires Acyclic(nodes) && |grads| == |nodes| && below <= |nodes| && PointBelow(es, below) && j < |nodes|
    ensures Propagate(nodes, grads, below, es, s)[j] == grads[j] + SeededEdgePathSum(nodes, below, es, s, j)
    decreases below, 0, |es|
  {
    if es != [] {
      var g' := Backward(nodes, grads, es[0].parent, s * es[0].weight);
      assert Propagate(nodes, grads, below, es, s) == Propagate(nodes, g', below, es[1..], s);
      BackwardIsChainRule(nodes, grads, es[0].parent, s * es[0].weight, j);
      PropagateIsChainRule(nodes, g', below, es[1..], s, j);
    }
  }

  /** `EdgePathSum` with every edge's term scaled by the seed first: what
      the parent loop adds, term by term. */
  ghost function SeededEdgePathSum(nodes: seq<Node>, below: nat, es: seq<Edge>, s: real, j: nat): real
    requires Acyclic(nodes) && below <= |nodes| && PointBelow(es, below)
    decreases |es|
  {
    if es == [] then 0.0
    else s * es[0].weight * PathSum(nodes, es[0].parent, j) + SeededEdgePathSum(nodes, below, es[1..], s, j)
  }

  /** Scaling term by term is scaling the sum. */
  lemma {:induction false} SeededEdgePathSumScales(nodes: seq<Node>, below: nat, es: seq<Edge>, s: real, j: nat)
    requires Acyclic(nodes) && below <= |nodes| && PointBelow(es, below)
    ensures SeededEdgePathSum(nodes, below, es, s, j) == s * EdgePathSum(nodes, below, es, j)
    decreases |es|
  {
    if es != [] {
      SeededEdgePathSumScales(nodes, below, es[1..], s, j);
      Distribute(s, es[0].weight, PathSum(nodes, es[0].parent, j), EdgePathSum(nodes, below, es[1..], j));
    }
  }

  /** The seed distributes over one edge's share and the rest. */
  lemma Distribute(s: real, w: real, p: real, rest: real)
    ensures s * w * p + s * rest == s * (w * p + rest)
  {
  }

  /** Accumulation: `backward(a)` followed by `backward(b)` equals
      `backward(a + b)`; gradients from repeated calls add up. */
  lemma BackwardTwiceAccumulates(nodes: seq<Node>, grads: seq<real>, i: nat, a: real, b: real)
    requires Acyclic(nodes) && |grads| == |nodes| && i < |nodes|
    ensures Backward(nodes, Backward(nodes, grads, i, a), i, b) == Backward(nodes, grads, i, a + b)
  {
    forall j | 0 <= j < |grads|
      ensures Backward(nodes, Backward(nodes, grads, i, a), i, b)[j] == Backward(nodes, grads, i, a + b)[j]
    {
      BackwardTwiceAt(nodes, grads, i, a, b, j);
    }
  }

  /** Accumulation at one node `j`. */
  lemma BackwardTwiceAt(nodes: seq<Node>, grads: seq<real>, i: nat, a: real, b: real, j: nat)
    requires Acyclic(nodes) && |grads| == |nodes| && i < |nodes| && j < |nodes|
    ensures Backward(nodes, Backward(nodes, grads, i, a), i, b)[j] == Backward(nodes, grads, i, a + b)[j]
  {
    var once := Backward(nodes, grads, i, a);
    var p, da := GradientDelta(nodes, grads, i, a, j);
    var p', db := GradientDelta(nodes, once, i, b, j);
    var p'', dab := GradientDelta(nodes, grads, i, a + b, j);
    AddSeeds(da, db, dab, a, b, p);
  }

  /** The chain rule at one node, with the path sum `p` and the change `d`
      named. */
  lemma GradientDelta(nodes: seq<Node>, grads: seq<real>, i: nat, s: real, j: nat) returns (p: real, d: real)
    requires Acyclic(nodes) && |grads| == |nodes| && i < |nodes| && j < |nodes|
    ensures p == PathSum(nodes, i, j) && d == s * p
    ensures Backward(nodes, grads, i, s)[j] == grads[j] + d
  {
    p := PathSum(nodes, i, j);
    d := s * p;
    BackwardIsChainRule(nodes, grads, i, s, j);
  }

  /** Two seeds' shares of one path sum add up, on plain numbers. */
  lemma AddSeeds(da: real, db: real, dab: real, a: real, b: real, p: real)
    requires da == a * p && db == b * p && dab == (a + b) * p
    ensures dab == da + db
  {
  }

  /** Linearity in the seed: the change a sweep makes is the seed times the
      change a sweep with seed 1 makes. */
  lemma BackwardIsLinear(nodes: seq<Node>, grads: seq<real>, i: nat, s: real, j: nat)
    requires Acyclic(nodes) && |grads| == |nodes| && i < |nodes| && j < |nodes|
    ensures Backward(nodes, grads, i, s)[j] - grads[j] == s * (Backward(nodes, grads, i, 1.0)[j] - grads[j])
  {
    BackwardIsChainRule(nodes, grads, i, s, j);
    BackwardIsChainRule(nodes, grads, i, 1.0, j);
  }

  /** A node without `requiresGrad` is never on a path: its path sum from
      any node is zero. */
  lemma {:induction false} PathSumToFrozen(nodes: seq<Node>, i: nat, j: nat)
    requires Acyclic(nodes) && i < |nodes| && j < |nodes| && !nodes[j].requiresGrad
    ensures PathSum(nodes, i, j) == 0.0
    decreases i, 1, 0
  {
    if nodes[i].requiresGrad {
      EdgePathSumToFrozen(nodes, i, nodes[i].parents, j);
    }
  }

  lemma {:induction false} EdgePathSumToFrozen(nodes: seq<Node>, below: nat, es: seq<Edge>, j: nat)
    requires Acyclic(nodes) && below <= |nodes| && PointBelow(es, below)
    requires j < |nodes| && !nodes[j].requiresGrad
    ensures EdgePathSum(nodes, below, es, j) == 0.0
    decreases below, 0, |es|
  {
    if es != [] {
      PathSumToFrozen(nodes, es[0].parent, j);
      EdgePathSumToFrozen(nodes, below, es[1..], j);
    }
  }

  /** A node created with `requires_grad = False` keeps its gradient through
      any sweep, wherever it sits in the graph. */
  lemma FrozenGradientUnchanged(nodes: seq<Node>, grads: seq<real>, i: nat, s: real, j: nat)
    requires Acyclic(nodes) && |grads| == |nodes| && i < |nodes| && j < |nodes|
    requires !nodes[j].requiresGrad
    ensures Backward(nodes, grads, i, s)[j] == grads[j]
  {
    BackwardIsChainRule(nodes, grads, i, s, j);
    PathSumToFrozen(nodes, i, j);
  }

  /** `j` is reachable from `i` along a path of participating nodes. */
  ghost predicate Reaches(nodes: seq<Node>, i: nat, j: nat)
    requires Acyclic(nodes) && i < |nodes|
    decreases i
  {
    nodes[i].requiresGrad &&
    (i == j ||
     exists k :: 0 <= k < |nodes[i].parents| && Reaches(nodes, nodes[i].parents[k].parent, j))
  }

  /** Without a participating path from `i` to `j` the path sum is zero. */
  lemma {:induction false} PathSumUnreachable(nodes: seq<Node>, i: nat, j: nat)
    requires Acyclic(nodes) && i < |nodes| && !Reaches(nodes, i, j)
    ensures PathSum(nodes, i, j) == 0.0
    decreases i, 1, 0
  {
    if nodes[i].requiresGrad {
      EdgePathSumUnreachable(nodes, i, nodes[i].parents, j);
    }
  }

  lemma {:induction false} EdgePathSumUnreachable(nodes: seq<Node>, below: nat, es: seq<Edge>, j: nat)
    requires Acyclic(nodes) && below <= |nodes| && PointBelow(es, below)
    requires forall k :: 0 <= k < |es| ==> !Reaches(nodes, es[k].parent, j)
    ensures EdgePathSum(nodes, below, es, j) == 0.0
    decreases below, 0, |es|
  {
    if es != [] {
      PathSumUnreachable(nodes, es[0].parent, j);
      EdgePathSumUnreachable(nodes, below, es[1..], j);
    }
  }

  /** A node not reachable from `i` through participating nodes keeps its
      gradient; in particular, when `i` itself does not participate, the
      sweep changes nothing, not even the ancestors behind it. */
  lemma UnreachableGradientUnchanged(nodes: seq<Node>, grads: seq<real>, i: nat, s: real, j: nat)
    requires Acyclic(nodes) && |grads| == |nodes| && i < |nodes| && j < |nodes|
    requires !Reaches(nodes, i, j)
    ensures Backward(nodes, grads, i, s)[j] == grads[j]
  {
    BackwardIsChainRule(nodes, grads, i, s, j);
    PathSumUnreachable(nodes, i, j);
  }
}
