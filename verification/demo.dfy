/** The usage example at the end of main.py, on scalars: leaves `u` and `z`,
    `h = u * (u + 5) ** 2 + z ** 3`, `g = h.cos()`, `f = g ** 2`, then
    `f.backward(1)`. The library functions stay parameters, so the gradients
    are stated symbolically. */
module Demo {
  import opened Graph
  import opened Power
  import opened Ops
  import opened Backprop
  import opened ChainRules

  /** The shape of the script's graph, in Python's evaluation order:
      0 `u`, 1 `z`, 2 `u + 5`, 3 `(u + 5) ** 2`, 4 `u * (u + 5) ** 2`,
      5 `z ** 3`, 6 `h`, 7 `g = cos h`, 8 `f = g ** 2`. `v` holds the nine
      forward values; `w` the weights of the edges out of nodes 3, 5, 7, 8. */
  function DemoGraph(v: seq<real>, w: seq<real>): seq<Node>
    requires |v| == 9 && |w| == 4
  {
    [ Node(v[0], [], true),
      Node(v[1], [], true),
      Node(v[2], [Edge(0, 1.0)], true),
      Node(v[3], [Edge(2, w[0])], true),
      Node(v[4], [Edge(0, v[3]), Edge(3, v[0])], true),
      Node(v[5], [Edge(1, w[1])], true),
      Node(v[6], [Edge(4, 1.0), Edge(5, 1.0)], true),
      Node(v[7], [Edge(6, w[2])], true),
      Node(v[8], [Edge(7, w[3])], true) ]
  }

  /** The forward value of `h = u * (u + 5) ** 2 + z ** 3`. */
  function DemoH(u: real, z: real): real
  {
    u * IntPow(u + 5.0, 2) + IntPow(z, 3)
  }

  /** Forward values of the script's nodes. */
  function DemoValues(u: real, z: real, lib: Elementary): seq<real>
  {
    var s := u + 5.0;
    var p := IntPow(s, 2);
    var h := DemoH(u, z);
    [u, z, s, p, u * p, IntPow(z, 3), h, lib.cos(h), IntPow(lib.cos(h), 2)]
  }

  /** Local derivatives recorded by `**2`, `**3`, `cos` and `**2`. */
  function DemoWeights(u: real, z: real, lib: Elementary): seq<real>
  {
    var h := DemoH(u, z);
    [PowWeight(u + 5.0, 2), PowWeight(z, 3), -lib.sin(h), PowWeight(lib.cos(h), 2)]
  }

  /** The script's operator calls on an empty arena: leaves `u` and `z`,
      then `h = u * (u + 5) ** 2 + z ** 3`, `g = h.cos()`, `f = g ** 2`. */
  function BuildDemo(u: real, z: real, lib: Elementary): (r: Built)
    ensures Valid(r.tape) && r.out == 8 && |r.tape.nodes| == 9
  {
    var bu := NewNode(Tape([], []), u, true);
    var bz := NewNode(bu.tape, z, true);
    var bs := Add(bz.tape, bu.out, Const(5.0));
    var bp := Pow(bs.tape, bs.out, 2);
    var bm := Mul(bp.tape, bu.out, Var(bp.out));
    var bc := Pow(bm.tape, bz.out, 3);
    var bh := Add(bc.tape, bm.out, Var(bc.out));
    var bg := Cos(bh.tape, lib, bh.out);
    Pow(bg.tape, bg.out, 2)
  }

  /** Running the script's operators builds exactly the demo graph, with
      every gradient zero. */
  lemma BuildDemoShape(u: real, z: real, lib: Elementary)
    ensures BuildDemo(u, z, lib).tape.nodes == DemoGraph(DemoValues(u, z, lib), DemoWeights(u, z, lib))
    ensures BuildDemo(u, z, lib).tape.grads == [0.0, 0.0, 0.0, 0.0, 0.0, 0.0, 0.0, 0.0, 0.0]
  {
    var v, w := DemoValues(u, z, lib), DemoWeights(u, z, lib);
    var n := DemoGraph(v, w);
    var t0 := Tape([], []);
    var bu := NewNode(t0, u, true);
    AppendsConcat(t0, bu, u, [], true);
    var bz := NewNode(bu.tape, z, true);
    AppendsConcat(bu.tape, bz, z, [], true);
    var bs := Add(bz.tape, bu.out, Const(5.0));
    AppendsConcat(bz.tape, bs, v[2], n[2].parents, true);
    var bp := Pow(bs.tape, bs.out, 2);
    AppendsConcat(bs.tape, bp, v[3], n[3].parents, true);
    var bm := Mul(bp.tape, bu.out, Var(bp.out));
    AppendsConcat(bp.tape, bm, v[4], n[4].parents, true);
    var bc := Pow(bm.tape, bz.out, 3);
    AppendsConcat(bm.tape, bc, v[5], n[5].parents, true);
    var bh := Add(bc.tape, bm.out, Var(bc.out));
    AppendsConcat(bc.tape, bh, v[6], n[6].parents, true);
    var bg := Cos(bh.tape, lib, bh.out);
    AppendsConcat(bh.tape, bg, v[7], n[7].parents, true);
    var bf := Pow(bg.tape, bg.out, 2);
    AppendsConcat(bg.tape, bf, v[8], n[8].parents, true);
    assert bf == BuildDemo(u, z, lib);
    assert bf.tape.nodes == [n[0], n[1], n[2], n[3], n[4], n[5], n[6], n[7], n[8]];
  }

  /** The derivatives of `f` with respect to `u` and `z` in the demo graph,
      as products of the recorded weights. */
  lemma DemoPathSums(v: seq<real>, w: seq<real>)
    requires |v| == 9 && |w| == 4
    ensures Acyclic(DemoGraph(v, w))
    ensures PathSum(DemoGraph(v, w), 8, 0) == w[3] * (w[2] * (v[3] + v[0] * w[0]))
    ensures PathSum(DemoGraph(v, w), 8, 1) == w[3] * (w[2] * w[1])
  {
    var nodes := DemoGraph(v, w);
    assert Acyclic(nodes);
    PathSumSelf(nodes, 0);
    PathSumSelf(nodes, 1);
    assert PathSum(nodes, 1, 0) == 0.0;
    assert PathSum(nodes, 0, 1) == 0.0;
    PathSumStep(nodes, 2, 0);
    PathSumStep(nodes, 2, 1);
    PathSumStep(nodes, 3, 0);
    PathSumStep(nodes, 3, 1);
    PathSumStep(nodes, 4, 0);
    PathSumStep(nodes, 4, 1);
    PathSumStep(nodes, 5, 0);
    PathSumStep(nodes, 5, 1);
    PathSumStep(nodes, 6, 0);
    PathSumStep(nodes, 6, 1);
    PathSumStep(nodes, 7, 0);
    PathSumStep(nodes, 7, 1);
    PathSumStep(nodes, 8, 0);
    PathSumStep(nodes, 8, 1);
  }

  /** `f.backward(1)` on the demo graph with all gradients zero, for any
      values and weights: the gradients of `u` and `z` are the products of
      the weights along the paths to them. */
  lemma DemoBackward(v: seq<real>, w: seq<real>)
    requires |v| == 9 && |w| == 4
    ensures Acyclic(DemoGraph(v, w))
    ensures Backward(DemoGraph(v, w), seq(9, _ => 0.0), 8, 1.0)[0] == w[3] * (w[2] * (v[3] + v[0] * w[0]))
    ensures Backward(DemoGraph(v, w), seq(9, _ => 0.0), 8, 1.0)[1] == w[3] * (w[2] * w[1])
  {
    var zeros: seq<real> := seq(9, _ => 0.0);
    DemoPathSums(v, w);
    BackwardIsChainRule(DemoGraph(v, w), zeros, 8, 1.0, 0);
    BackwardIsChainRule(DemoGraph(v, w), zeros, 8, 1.0, 1);
  }

  /** The gradients the script reads out after `f.backward(1)`, with
      `h = u * (u + 5) ** 2 + z ** 3` and `g = cos h`, are the analytic
      derivatives of `f = g ** 2`, each edge contributing the local
      derivative the operator recorded:
      `df/du = 2g * -sin h * ((u + 5) ** 2 + u * 2 (u + 5))` and
      `df/dz = 2g * -sin h * 3 z ** 2`. */
  lemma DemoGradients(u: real, z: real, lib: Elementary)
    ensures var b := BuildDemo(u, z, lib);
      var s, h := u + 5.0, DemoH(u, z);
      var g := lib.cos(h);
      var grads := BackwardOn(b.tape, b.out, 1.0).grads;
      && grads[0] == PowWeight(g, 2) * (-lib.sin(h) * (IntPow(s, 2) + u * PowWeight(s, 2)))
      && grads[1] == PowWeight(g, 2) * (-lib.sin(h) * PowWeight(z, 3))
  {
    var b := BuildDemo(u, z, lib);
    BuildDemoShape(u, z, lib);
    DemoTapeGradients(b.tape, u, z, lib);
  }

  /** `DemoGradients` for any arena holding the demo graph with all
      gradients zero. */
  lemma DemoTapeGradients(t: Tape, u: real, z: real, lib: Elementary)
    requires t.nodes == DemoGraph(DemoValues(u, z, lib), DemoWeights(u, z, lib))
    requires t.grads == [0.0, 0.0, 0.0, 0.0, 0.0, 0.0, 0.0, 0.0, 0.0]
    ensures Valid(t)
    ensures var s, h := u + 5.0, DemoH(u, z);
      var g := lib.cos(h);
      var grads := BackwardOn(t, 8, 1.0).grads;
      && grads[0] == PowWeight(g, 2) * (-lib.sin(h) * (IntPow(s, 2) + u * PowWeight(s, 2)))
      && grads[1] == PowWeight(g, 2) * (-lib.sin(h) * PowWeight(z, 3))
  {
    var v, w := DemoValues(u, z, lib), DemoWeights(u, z, lib);
    DemoBackward(v, w);
    assert t.grads == seq(9, _ => 0.0);
  }
}
