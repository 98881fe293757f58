# Reverse-mode autodiff `Node`, modelled in Dafny

The system is a small reverse-mode automatic-differentiation engine: one
class `Node` (main.py). A `Node` holds a forward `value`, a `gradient`, a
`requires_grad` flag and a list of `parents`, each a pair of an operand node
and the local derivative of this node with respect to it. The operators
`+`, `*`, `**`, `sin`, `cos`, `log` and `exp` each build a new node and
record its edges; `backward(grad)` adds `grad` into a participating node's
gradient and recurses into every parent with `grad * local_derivative`.

The model is functional:

- `Graph` — the arena. Nodes are immutable records in a `seq`; an edge is
  `Edge(parent, weight)` with `parent` an index strictly below the owner's,
  so the graph is acyclic by construction. Gradients live in a separate
  `seq<real>` next to the nodes (`Tape`).
- `Power` — exact `x ** n` for a natural `n` and the recorded weight
  `n * x ** (n - 1)`, with the proof that this weight is the derivative of
  `t ** n` (the divided difference of `t ** n` between `x` and `y` factors
  `y ** n - x ** n` and equals the weight when `y = x`).
- `Ops` — `Node.__init__` and the seven operators, each appending one node.
- `Backprop` — `Node.backward` as a pure mutual recursion (the node, then
  the loop over its parents) that returns the updated gradients, and the
  reference semantics `PathSum`: the sum over all paths of participating
  nodes of the products of edge weights. The central theorem is that one
  sweep with seed `s` from node `i` raises every gradient `j` by exactly
  `s * PathSum(i, j)`; accumulation, linearity and the `requires_grad`
  cut-off follow from it.
- `Paths` — the paths themselves: each path is listed explicitly as the
  sequence of edge positions it follows, and `PathSum` is shown to be the
  total weight of exactly those paths, each counted once.
- `ChainRules` — what each operator contributes to path sums: the sum,
  product and power rules and the elementary functions' chain rules, and the
  gradient of `x + x` and `x * x`.
- `Demo` — the usage script at the end of main.py on scalars:
  `h = u * (u + 5) ** 2 + z ** 3`, `g = cos h`, `f = g ** 2`,
  `f.backward(1)`; the gradients of `u` and `z` are the analytic derivatives.

`np.sin`, `np.cos`, `np.log` and `np.exp` are parameters (`Ops.Elementary`);
the model relies only on which of them each operator uses for its value and
its edge weight. Values are exact reals.

`Node.log` has no domain check: numpy returns `-inf` at 0 and `nan` below
it. The model has no error path; its only precondition is the non-zero
operand that `1 / x` needs.

## Model

| member | source | states |
|---|---|---|
| Ops.NewNode | main.py:4-8 | a new node is appended at the end of the arena with the given value and flag, no edges and gradient zero; every existing node and gradient is unchanged and the arena stays acyclic |
| Ops.Add | main.py:10-17 | node plus node appends value `x + y` with exactly the edges `(self, 1)` and `(other, 1)`; node plus constant appends `x + c` with the single edge `(self, 1)`; the result participates and has gradient zero; nothing else changes |
| Ops.Mul | main.py:19-26 | node times node appends `x * y` with edges `(self, y)` and `(other, x)`, each weighted by the other operand's value; node times constant appends `x * c` with the single edge `(self, c)`; nothing else changes |
| Ops.Pow | main.py:28-31 | appends `x ** n` with one edge to the operand weighted `n * x ** (n - 1)` (zero when `n` is zero) |
| Ops.Sin | main.py:34-37 | appends `sin x` with one edge to the operand weighted `cos x` |
| Ops.Cos | main.py:39-42 | appends `cos x` with one edge to the operand weighted `-sin x` |
| Ops.Log | main.py:44-47 | appends `log x` with one edge to the operand weighted `1 / x` |
| Ops.Exp | main.py:49-52 | appends `exp x` with one edge to the operand weighted `exp x` |
| Power.PowDifference | main.py:28-31 | `y ** n - x ** n` equals `y - x` times the divided difference of `t ** n` between `x` and `y` |
| Power.PowWeightIsDerivative | main.py:30 | the divided difference at coincident points is the weight `__pow__` records, so that weight is the derivative of `t ** n` |
| Backprop.Backward | main.py:54-58 | a sweep keeps the gradient count; a non-participating node changes no gradient at all; a participating node's gradient rises by the seed (added, not overwritten); nodes built later than `i` are untouched |
| Backprop.Propagate | main.py:57-58 | the loop over the parents keeps the gradient count and never touches the owner or any later node |
| Backprop.BackwardOn | main.py:54-58 | a sweep on an arena changes only gradients, never nodes or edges |
| Backprop.BackwardIsChainRule | main.py:54-58 | after `backward(s)` from `i`, the gradient of every node `j` has risen by exactly `s` times the sum over participating paths from `i` to `j` of the products of edge weights |
| Backprop.PropagateIsChainRule | main.py:57-58 | the loop over the parents raises each gradient by the sum, over the edges visited, of the seed times the edge weight times the path sum from that edge's parent |
| Backprop.SeededEdgePathSumScales | main.py:58 | scaling each edge's term by the seed (as the recursive call `grad * local_grad` does) is scaling the whole path sum |
| Backprop.BackwardTwiceAccumulates | main.py:54-58 | `backward(a)` followed by `backward(b)` gives the same gradients as `backward(a + b)` |
| Backprop.BackwardIsLinear | main.py:56-58 | the change a sweep makes is linear in the seed: seed `s` changes each gradient `s` times as much as seed 1 |
| Backprop.PathSumToFrozen | main.py:55 | no participating path ends at a node with `requires_grad` false |
| Backprop.FrozenGradientUnchanged | main.py:55-56 | a node with `requires_grad` false keeps its gradient through every sweep |
| Backprop.PathSumUnreachable | main.py:55-58 | without a participating path from `i` to `j` the path sum is zero |
| Backprop.UnreachableGradientUnchanged | main.py:55-58 | a node not reachable from `i` through participating nodes keeps its gradient; so a sweep from a non-participating node changes no ancestor behind it |
| Paths.AllPathsAreThePaths | main.py:55-58 | the enumerated paths from `i` to `j` are exactly the walks along recorded edges, through participating nodes only, from `i` to `j` |
| Paths.AllPathsDistinct | main.py:57-58 | no path is enumerated twice; the two edges of `x + x` give two different paths |
| Paths.PathSumIsTotalWeight | main.py:55-58 | the recursive path sum equals the sum over the enumerated paths of the product of their edge weights |
| Paths.ReachesIffPath | main.py:55-58 | a node is reachable from `i` through participating nodes exactly when some path leads to it, in both directions |
| Paths.BackwardSumsOverPaths | main.py:54-58 | `backward(s)` from `i` raises the gradient of `j` by `s` times the sum, over every participating path from `i` to `j`, each counted once, of the product of the weights along it |
| ChainRules.ReachesOnlyBelow | main.py:10-52 | every node reached from `i` was built no later than `i` |
| ChainRules.PathSumSelf | main.py:55-56 | the path sum from a participating node to itself is 1 |
| ChainRules.PathSumExtend | main.py:12-52 | building a new node leaves all path sums between existing nodes unchanged |
| ChainRules.AppendedPathSum | main.py:12-52 | the path sum from a freshly built node is the weighted sum over its recorded edges of the path sums from its operands |
| ChainRules.AddChainRule | main.py:10-17 | sum rule: the path sum from `a + b` is that from `a` plus that from `b`; from `a + c` it is that from `a` |
| ChainRules.MulChainRule | main.py:19-26 | product rule: from `a * b` it is `b * d(a) + a * d(b)`; from `a * c` it is `c * d(a)` |
| ChainRules.PowChainRule | main.py:28-31 | power rule: from `a ** n` it is `n * a ** (n - 1) * d(a)` |
| ChainRules.SinChainRule | main.py:34-37 | from `sin a` it is `cos a * d(a)` |
| ChainRules.CosChainRule | main.py:39-42 | from `cos a` it is `-sin a * d(a)` |
| ChainRules.LogChainRule | main.py:44-47 | from `log a` it is `d(a) / a` |
| ChainRules.ExpChainRule | main.py:49-52 | from `exp a` it is `exp a * d(a)` |
| ChainRules.AddSelfDoublesGradient | main.py:10-17 | `backward(g)` on `x + x` raises the gradient of a participating `x` by `2 * g`: both edges to `x` contribute |
| ChainRules.MulSelfGradient | main.py:19-26 | `backward(g)` on `x * x` raises the gradient of a participating `x` by `2 * x * g` |
| Demo.BuildDemo | main.py:60-64 | the script's operator calls build a valid arena of nine nodes whose output is `f` |
| Demo.BuildDemoShape | main.py:60-64 | those calls build exactly the graph of `u * (u + 5) ** 2 + z ** 3`, `cos`, `** 2`, with every gradient zero |
| Demo.DemoPathSums | main.py:62-65 | in that graph, the path sum from `f` to `u` is `w3 * w2 * ((u + 5) ** 2 + u * w0)` and to `z` is `w3 * w2 * w1`, for any values and weights |
| Demo.DemoBackward | main.py:65 | `f.backward(1)` from zero gradients leaves exactly those path sums in `u` and `z` |
| Demo.DemoGradients | main.py:65-67 | the script's `u.gradient` is `2g * -sin h * ((u + 5) ** 2 + 2u (u + 5))` and `z.gradient` is `2g * -sin h * 3 z ** 2`, the analytic derivatives of `f` |
| Demo.DemoTapeGradients | main.py:65-67 | the same gradients for any arena that holds the script's graph with zero gradients |

## Left out

- numpy arrays, broadcasting and dtypes (main.py:6 `zeros_like`, the
  script's arrays): values and gradients are scalars; numpy applies the same
  rule elementwise.
- IEEE floating point: values are exact reals, so rounding, `inf` and `nan`
  are not modelled.
- `np.sin`, `np.cos`, `np.log`, `np.exp`: foreign numeric functions, taken
  as parameters; their values are never assumed.
- Ops.Log: requires a non-zero operand, because the edge weight `1 / x`
  needs one; the source would produce `inf` (numpy) or raise
  `ZeroDivisionError` (a Python number) there. No domain error exists in the
  source and none is modelled.
- Ops.Pow: the exponent is a natural number; negative, fractional and array
  exponents are not modelled, and for `n = 0` the weight is taken as 0,
  where the source computes `0 * x ** -1` (0 for a non-zero `x`, an error
  or `nan` at `x = 0`).
- Python object identity and in-place mutation of `gradient` and `parents`
  are replaced by arena indices and a returned gradient sequence.
- Aliasing of the seed with a gradient buffer: main.py:56 updates
  `self.gradient` in place, so a seed that is itself some node's `gradient`
  array (`x.backward(x.gradient)`, or such a seed reaching that node again
  partway through a sweep) grows while the sweep runs. The model treats
  every seed as a value fixed at the call, so it does not describe that
  case.
- Reassigning `requires_grad` or `value` after construction: Python callers
  may do it, and it is the only way the source gets a non-participating node
  that has parents. `Ops` fixes the flag when a node is built, so such a
  node appears only in an arena written by hand. The `Backprop` and `Paths`
  lemmas hold for any acyclic arena, whatever its flags, so they cover it
  (for example `Backprop.UnreachableGradientUnchanged` for the ancestors
  behind a frozen node).
- Constants on the left (`2 * x`, `5 + x`): the source defines no
  `__radd__` or `__rmul__`, so these do not exist in the model either;
  `x - y`, `x / y` and unary minus are not defined in the source.
- Python's recursion limit: `backward` recurses once per path edge, so deep
  graphs overflow the stack in the source; the model has no depth limit.
- The script's printed numbers (main.py:66-69): they depend on numpy's
  `cos` and `sin`; the model states the gradients symbolically instead.
