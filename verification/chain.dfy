/** What each operator contributes to the derivative.

    Appending a node never changes path sums between existing nodes, so the
    path sum from a freshly built node is the weighted sum of its operands'
    path sums: the sum rule, product rule, power rule and the elementary
    functions' chain rules, with the weights the operators record. */
module ChainRules {
  import opened Graph
  import opened Power
  import opened Ops
  import opened Backprop

  /** A participating path from `i` only ever reaches `i` or earlier nodes. */
  lemma {:induction false} ReachesOnlyBelow(nodes: seq<Node>, i: nat, j: nat)
    requires Acyclic(nodes) && i < |nodes| && Reaches(nodes, i, j)
    ensures j <= i
    decreases i
  {
    if i != j {
      var k :| 0 <= k < |nodes[i].parents| && Reaches(nodes, nodes[i].parents[k].parent, j);
      ReachesOnlyBelow(nodes, nodes[i].parents[k].parent, j);
    }
  }

  /** The derivative of a participating node with respect to itself is 1. */
  lemma {:induction false} PathSumSelf(nodes: seq<Node>, i: nat)
    requires Acyclic(nodes) && i < |nodes| && nodes[i].requiresGrad
    ensures PathSum(nodes, i, i) == 1.0
  {
    var es := nodes[i].parents;
    forall k | 0 <= k < |es|
      ensures !Reaches(nodes, es[k].parent, i)
    {
      if Reaches(nodes, es[k].parent, i) {
        ReachesOnlyBelow(nodes, es[k].parent, i);
      }
    }
    EdgePathSumUnreachable(nodes, i, es, i);
  }

  /** Path sums from existing nodes do not see a node appended later. */
  lemma {:induction false} PathSumExtend(nodes: seq<Node>, n: Node, i: nat, j: nat)
    requires Acyclic(nodes) && Acyclic(nodes + [n]) && i < |nodes|
    ensures PathSum(nodes + [n], i, j) == PathSum(nodes, i, j)
    decreases i, 1, 0
  {
    assert (nodes + [n])[i] == nodes[i];
    if nodes[i].requiresGrad {
      EdgePathSumExtend(nodes, n, i, nodes[i].parents, j);
    }
  }

  lemma {:induction false} EdgePathSumExtend(nodes: seq<Node>, n: Node, below: nat, es: seq<Edge>, j: nat)
    requires Acyclic(nodes) && Acyclic(nodes + [n]) && below <= |nodes| && PointBelow(es, below)
    ensures EdgePathSum(nodes + [n], below, es, j) == EdgePathSum(nodes, below, es, j)
    decreases below, 0, |es|
  {
    if es != [] {
      PathSumExtend(nodes, n, es[0].parent, j);
      EdgePathSumExtend(nodes, n, below, es[1..], j);
    }
  }

  /** The path sum from a node an operator just appended, to any existing
      node, is the weighted sum of the path sums from its operands. */
  lemma AppendedPathSum(t: Tape, r: Built, value: real, es: seq<Edge>, j: nat)
    requires Valid(t) && Valid(r.tape) && Appends(t, r, value, es, true)
    requires j < |t.nodes|
    ensures PointBelow(es, |t.nodes|)
    ensures PathSum(r.tape.nodes, r.out, j) == EdgePathSum(t.nodes, |t.nodes|, es, j)
  {
    var n := Node(value, es, true);
    assert r.tape.nodes == t.nodes + [n];
    EdgePathSumExtend(t.nodes, n, |t.nodes|, es, j);
  }

  /** Sum rule: `d(a + b) = da + db`, and `d(a + c) = da` for a constant. */
  lemma AddChainRule(t: Tape, a: nat, other: Operand, j: nat)
    requires Valid(t) && a < |t.nodes| && Fits(t, other) && j < |t.nodes|
    ensures var r := Add(t, a, other);
      PathSum(r.tape.nodes, r.out, j)
        == PathSum(t.nodes, a, j) + (if other.Var? then PathSum(t.nodes, other.index, j) else 0.0)
  {
    var r := Add(t, a, other);
    var es := r.tape.nodes[r.out].parents;
    AppendedPathSum(t, r, r.tape.nodes[r.out].value, es, j);
    EdgePathSumUnfold(t.nodes, es, j);
  }

  /** Product rule: `d(a * b) = b * da + a * db`, and `d(a * c) = c * da`. */
  lemma MulChainRule(t: Tape, a: nat, other: Operand, j: nat)
    requires Valid(t) && a < |t.nodes| && Fits(t, other) && j < |t.nodes|
    ensures var r := Mul(t, a, other);
      PathSum(r.tape.nodes, r.out, j)
        == if other.Var? then
             t.nodes[other.index].value * PathSum(t.nodes, a, j)
               + t.nodes[a].value * PathSum(t.nodes, other.index, j)
           else other.c * PathSum(t.nodes, a, j)
  {
    var r := Mul(t, a, other);
    var es := r.tape.nodes[r.out].parents;
    AppendedPathSum(t, r, r.tape.nodes[r.out].value, es, j);
    EdgePathSumUnfold(t.nodes, es, j);
  }

  /** The path sum through one or two edges, written out. */
  lemma EdgePathSumUnfold(nodes: seq<Node>, es: seq<Edge>, j: nat)
    requires Acyclic(nodes) && PointBelow(es, |nodes|) && 1 <= |es| <= 2
    ensures |es| == 1 ==>
      EdgePathSum(nodes, |nodes|, es, j) == es[0].weight * PathSum(nodes, es[0].parent, j)
    ensures |es| == 2 ==>
      EdgePathSum(nodes, |nodes|, es, j)
        == es[0].weight * PathSum(nodes, es[0].parent, j) + es[1].weight * PathSum(nodes, es[1].parent, j)
  {
    var n := |nodes|;
    if |es| == 2 {
      assert es[1..][1..] == [];
      assert EdgePathSum(nodes, n, es[1..], j) == es[1].weight * PathSum(nodes, es[1].parent, j);
    } else {
      assert es[1..] == [];
    }
  }

  /** One step of the path sum from a participating node `i` to another
      node, through its one or two edges. */
  lemma PathSumStep(nodes: seq<Node>, i: nat, j: nat)
    requires Acyclic(nodes) && i < |nodes| && nodes[i].requiresGrad && i != j
    requires 1 <= |nodes[i].parents| <= 2
    ensures var es := nodes[i].parents;
      PathSum(nodes, i, j)
        == es[0].weight * PathSum(nodes, es[0].parent, j)
           + (if |es| == 2 then es[1].weight * PathSum(nodes, es[1].parent, j) else 0.0)
  {
    var es := nodes[i].parents;
    assert PointBelow(es, |nodes|);
    EdgePathSumUnfold(nodes, es, j);
    EdgePathSumBound(nodes, i, es, j);
  }

  /** `EdgePathSum` does not depend on the bound it carries. */
  lemma {:induction false} EdgePathSumBound(nodes: seq<Node>, below: nat, es: seq<Edge>, j: nat)
    requires Acyclic(nodes) && below <= |nodes| && PointBelow(es, below)
    ensures PointBelow(es, |nodes|)
    ensures EdgePathSum(nodes, below, es, j) == EdgePathSum(nodes, |nodes|, es, j)
    decreases |es|
  {
    if es != [] {
      EdgePathSumBound(nodes, below, es[1..], j);
    }
  }

  /** The chain rule through a node with the single edge `(a, w)`. */
  lemma SingleEdgePathSum(t: Tape, r: Built, value: real, a: nat, w: real, j: nat)
    requires Valid(t) && Valid(r.tape) && Appends(t, r, value, [Edge(a, w)], true)
    requires a < |t.nodes| && j < |t.nodes|
    ensures PathSum(r.tape.nodes, r.out, j) == w * PathSum(t.nodes, a, j)
  {
    AppendedPathSum(t, r, value, [Edge(a, w)], j);
    EdgePathSumUnfold(t.nodes, [Edge(a, w)], j);
  }

  /** Power rule: `d(a ** n) = n * a ** (n - 1) * da`. */
  lemma PowChainRule(t: Tape, a: nat, n: nat, j: nat)
    requires Valid(t) && a < |t.nodes| && j < |t.nodes|
    ensures PathSum(Pow(t, a, n).tape.nodes, |t.nodes|, j)
      == PowWeight(t.nodes[a].value, n) * PathSum(t.nodes, a, j)
  {
    var x := t.nodes[a].value;
    SingleEdgePathSum(t, Pow(t, a, n), IntPow(x, n), a, PowWeight(x, n), j);
  }

  /** `d(sin a) = cos a * da`. */
  lemma SinChainRule(t: Tape, lib: Elementary, a: nat, j: nat)
    requires Valid(t) && a < |t.nodes| && j < |t.nodes|
    ensures PathSum(Sin(t, lib, a).tape.nodes, |t.nodes|, j)
      == lib.cos(t.nodes[a].value) * PathSum(t.nodes, a, j)
  {
    var x := t.nodes[a].value;
    SingleEdgePathSum(t, Sin(t, lib, a), lib.sin(x), a, lib.cos(x), j);
  }

  /** `d(cos a) = -sin a * da`. */
  lemma CosChainRule(t: Tape, lib: Elementary, a: nat, j: nat)
    requires Valid(t) && a < |t.nodes| && j < |t.nodes|
    ensures PathSum(Cos(t, lib, a).tape.nodes, |t.nodes|, j)
      == -lib.sin(t.nodes[a].value) * PathSum(t.nodes, a, j)
  {
    var x := t.nodes[a].value;
    SingleEdgePathSum(t, Cos(t, lib, a), lib.cos(x), a, -lib.sin(x), j);
  }

  /** `d(log a) = da / a`. */
  lemma LogChainRule(t: Tape, lib: Elementary, a: nat, j: nat)
    requires Valid(t) && a < |t.nodes| && t.nodes[a].value != 0.0 && j < |t.nodes|
    ensures PathSum(Log(t, lib, a).tape.nodes, |t.nodes|, j)
      == PathSum(t.nodes, a, j) / t.nodes[a].value
  {
    var x := t.nodes[a].value;
    SingleEdgePathSum(t, Log(t, lib, a), lib.log(x), a, 1.0 / x, j);
  }

  /** `d(exp a) = exp a * da`. */
  lemma ExpChainRule(t: Tape, lib: Elementary, a: nat, j: nat)
    requires Valid(t) && a < |t.nodes| && j < |t.nodes|
    ensures PathSum(Exp(t, lib, a).tape.nodes, |t.nodes|, j)
      == lib.exp(t.nodes[a].value) * PathSum(t.nodes, a, j)
  {
    var x := t.nodes[a].value;
    SingleEdgePathSum(t, Exp(t, lib, a), lib.exp(x), a, lib.exp(x), j);
  }

  /** Reusing a node sums both paths: `backward(g)` on `x + x` raises the
      gradient of a participating `x` by `2 * g`. */
  lemma AddSelfDoublesGradient(t: Tape, a: nat, g: real)
    requires Valid(t) && a < |t.nodes| && t.nodes[a].requiresGrad
    ensures var r := Add(t, a, Var(a));
      BackwardOn(r.tape, r.out, g).grads[a] == t.grads[a] + 2.0 * g
  {
    var r := Add(t, a, Var(a));
    AddChainRule(t, a, Var(a), a);
    PathSumSelf(t.nodes, a);
    BackwardIsChainRule(r.tape.nodes, r.tape.grads, r.out, g, a);
  }

  /** `backward(g)` on `x * x` raises the gradient of a participating `x`
      by `2 * x * g`. */
  lemma MulSelfGradient(t: Tape, a: nat, g: real)
    requires Valid(t) && a < |t.nodes| && t.nodes[a].requiresGrad
    ensures var r := Mul(t, a, Var(a));
      BackwardOn(r.tape, r.out, g).grads[a] == t.grads[a] + 2.0 * t.nodes[a].value * g
  {
    var r := Mul(t, a, Var(a));
    var x := t.nodes[a].value;
    MulChainRule(t, a, Var(a), a);
    PathSumSelf(t.nodes, a);
    BackwardIsChainRule(r.tape.nodes, r.tape.grads, r.out, g, a);
    assert g * (x * 1.0 + x * 1.0) == 2.0 * x * g;
  }
}
