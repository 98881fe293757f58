/** Graph construction: `Node.__init__` and the operators of `Node`.

    Each operator appends one new node to the arena and returns its index.
    The new node has gradient zero, `requiresGrad` true (the constructor's
    default), the forward value of the operation, and one edge per operand
    that is a node, weighted by the local derivative at the operands' values.
    A plain constant operand gets no edge. */
module Ops {
  import opened Graph
  import opened Power

  /** The numeric library's elementary functions (`np.sin`, `np.cos`,
      `np.log`, `np.exp`), taken as parameters: the model only relies on how
      the engine combines them, never on their values. */
  datatype Elementary = Elementary(sin: real -> real, cos: real -> real, log: real -> real, exp: real -> real)

  /** The right-hand operand of `+` and `*`: another node or a plain number. */
  datatype Operand = Var(index: nat) | Const(c: real)

  /** An arena together with the index of the node just built in it. */
  datatype Built = Built(tape: Tape, out: nat)

  /** A `Var` operand refers to a node of `t`. */
  predicate Fits(t: Tape, o: Operand)
  {
    o.Var? ==> o.index < |t.nodes|
  }

  /** `r` is `t` with exactly one node appended, holding `value`, `parents`
      and `requiresGrad`, with gradient zero; nothing already in `t` changes. */
  predicate Appends(t: Tape, r: Built, value: real, parents: seq<Edge>, requiresGrad: bool)
  {
    && r.out == |t.nodes|
    && |r.tape.nodes| == |t.nodes| + 1
    && |r.tape.grads| == |t.grads| + 1
    && r.tape.nodes[..r.out] == t.nodes
    && r.tape.grads[..|t.grads|] == t.grads
    && r.tape.nodes[r.out] == Node(value, parents, requiresGrad)
    && r.tape.grads[|t.grads|] == 0.0
  }

  /** Appending, stated as sequence concatenation. */
  lemma AppendsConcat(t: Tape, r: Built, value: real, parents: seq<Edge>, requiresGrad: bool)
    requires Appends(t, r, value, parents, requiresGrad)
    ensures r.tape.nodes == t.nodes + [Node(value, parents, requiresGrad)]
    ensures r.tape.grads == t.grads + [0.0]
  {
    assert r.tape.nodes == r.tape.nodes[..r.out] + [r.tape.nodes[r.out]];
    assert r.tape.grads == r.tape.grads[..|t.grads|] + [r.tape.grads[|t.grads|]];
  }

  /** `Node.__init__`: a node with the given value and flag, no edges and a
      zero gradient. */
  function NewNode(t: Tape, value: real, requiresGrad: bool): (r: Built)
    requires Valid(t)
    ensures Valid(r.tape)
    ensures Appends(t, r, value, [], requiresGrad)
  {
    Built(Tape(t.nodes + [Node(value, [], requiresGrad)], t.grads + [0.0]), |t.nodes|)
  }

  /** An operator's result: a fresh default node whose `parents` are then set. */
  function Record(t: Tape, value: real, parents: seq<Edge>): (r: Built)
    requires Valid(t) && PointBelow(parents, |t.nodes|)
    ensures Valid(r.tape)
    ensures Appends(t, r, value, parents, true)
  {
    var b := NewNode(t, value, true);
    Built(Tape(b.tape.nodes[b.out := Node(value, parents, true)], b.tape.grads), b.out)
  }

  /** `Node.__add__`: both edges carry weight 1; a constant gets no edge. */
  function Add(t: Tape, a: nat, other: Operand): (r: Built)
    requires Valid(t) && a < |t.nodes| && Fits(t, other)
    ensures Valid(r.tape)
    ensures other.Var? ==>
      Appends(t, r, t.nodes[a].value + t.nodes[other.index].value,
              [Edge(a, 1.0), Edge(other.index, 1.0)], true)
    ensures other.Const? ==>
      Appends(t, r, t.nodes[a].value + other.c, [Edge(a, 1.0)], true)
  {
    match other
    case Var(b) => Record(t, t.nodes[a].value + t.nodes[b].value, [Edge(a, 1.0), Edge(b, 1.0)])
    case Const(c) => Record(t, t.nodes[a].value + c, [Edge(a, 1.0)])
  }

  /** `Node.__mul__`: each node operand's edge is weighted by the other
      operand's value; a constant gets no edge and weights the receiver's. */
  function Mul(t: Tape, a: nat, other: Operand): (r: Built)
    requires Valid(t) && a < |t.nodes| && Fits(t, other)
    ensures Valid(r.tape)
    ensures other.Var? ==>
      Appends(t, r, t.nodes[a].value * t.nodes[other.index].value,
              [Edge(a, t.nodes[other.index].value), Edge(other.index, t.nodes[a].value)], true)
    ensures other.Const? ==>
      Appends(t, r, t.nodes[a].value * other.c, [Edge(a, other.c)], true)
  {
    match other
    case Var(b) =>
      var x, y := t.nodes[a].value, t.nodes[b].value;
      Record(t, x * y, [Edge(a, y), Edge(b, x)])
    case Const(c) => Record(t, t.nodes[a].value * c, [Edge(a, c)])
  }

  /** `Node.__pow__` with a non-negative integer exponent. */
  function Pow(t: Tape, a: nat, n: nat): (r: Built)
    requires Valid(t) && a < |t.nodes|
    ensures Valid(r.tape)
    ensures Appends(t, r, IntPow(t.nodes[a].value, n), [Edge(a, PowWeight(t.nodes[a].value, n))], true)
  {
    var x := t.nodes[a].value;
    Record(t, IntPow(x, n), [Edge(a, PowWeight(x, n))])
  }

  /** `Node.sin`: one edge weighted by the cosine of the operand. */
  function Sin(t: Tape, lib: Elementary, a: nat): (r: Built)
    requires Valid(t) && a < |t.nodes|
    ensures Valid(r.tape)
    ensures Appends(t, r, lib.sin(t.nodes[a].value), [Edge(a, lib.cos(t.nodes[a].value))], true)
  {
    var x := t.nodes[a].value;
    Record(t, lib.sin(x), [Edge(a, lib.cos(x))])
  }

  /** `Node.cos`: one edge weighted by minus the sine of the operand. */
  function Cos(t: Tape, lib: Elementary, a: nat): (r: Built)
    requires Valid(t) && a < |t.nodes|
    ensures Valid(r.tape)
    ensures Appends(t, r, lib.cos(t.nodes[a].value), [Edge(a, -lib.sin(t.nodes[a].value))], true)
  {
    var x := t.nodes[a].value;
    Record(t, lib.cos(x), [Edge(a, -lib.sin(x))])
  }

  /** `Node.log`: one edge weighted by the reciprocal of the operand. */
  function Log(t: Tape, lib: Elementary, a: nat): (r: Built)
    requires Valid(t) && a < |t.nodes| && t.nodes[a].value != 0.0
    ensures Valid(r.tape)
    ensures Appends(t, r, lib.log(t.nodes[a].value), [Edge(a, 1.0 / t.nodes[a].value)], true)
  {
    var x := t.nodes[a].value;
    Record(t, lib.log(x), [Edge(a, 1.0 / x)])
  }

  /** `Node.exp`: one edge weighted by the exponential of the operand. */
  function Exp(t: Tape, lib: Elementary, a: nat): (r: Built)
    requires Valid(t) && a < |t.nodes|
    ensures Valid(r.tape)
    ensures Appends(t, r, lib.exp(t.nodes[a].value), [Edge(a, lib.exp(t.nodes[a].value))], true)
  {
    var x := t.nodes[a].value;
    Record(t, lib.exp(x), [Edge(a, lib.exp(x))])
  }
}
