/** Paths through the graph, written out one by one.

    `PathSum` is defined by recursion over the edges; here the paths it sums
    over are enumerated explicitly, so the chain rule of `Backprop` reads as
    the textbook statement: a sweep adds the seed times the sum, over every
    path of participating nodes, of the product of the weights along it. */
module Paths {
  import opened Graph
  import opened Backprop

  /** A path is named by the position, within each visited node's
      `parents`, of the edge it follows. It leads from `i` to `j` when every
      edge exists, the walk ends at `j`, and every node on it, both ends
      included, has `requiresGrad`. Positions rather than parent indices tell
      apart the two edges of `x + x`. */
  ghost predicate IsPath(nodes: seq<Node>, i: nat, j: nat, p: seq<nat>)
    requires Acyclic(nodes) && i < |nodes|
    decreases |p|
  {
    && nodes[i].requiresGrad
    && if p == [] then i == j
       else p[0] < |nodes[i].parents| && IsPath(nodes, nodes[i].parents[p[0]].parent, j, p[1..])
  }

  /** The product of the weights along the edges `p` from `i`. */
  ghost function PathWeight(nodes: seq<Node>, i: nat, p: seq<nat>): real
    requires Acyclic(nodes) && i < |nodes|
    decreases |p|
  {
    if p == [] then 1.0
    else if p[0] < |nodes[i].parents| then
      nodes[i].parents[p[0]].weight * PathWeight(nodes, nodes[i].parents[p[0]].parent, p[1..])
    else 0.0
  }

  /** Every path in `ps`, with the edge at position `k` put in front. */
  function Prefixed(k: nat, ps: seq<seq<nat>>): (r: seq<seq<nat>>)
    ensures |r| == |ps|
    ensures forall m :: 0 <= m < |ps| ==> |r[m]| == |ps[m]| + 1 && r[m][0] == k && r[m][1..] == ps[m]
  {
    seq(|ps|, m requires 0 <= m < |ps| => [k] + ps[m])
  }

  /** The paths from `i` to `j`, enumerated: the empty path when `i` is `j`,
      then the paths through each edge of `i` in turn. */
  ghost function AllPaths(nodes: seq<Node>, i: nat, j: nat): seq<seq<nat>>
    requires Acyclic(nodes) && i < |nodes|
    decreases i, 1, 0
  {
    if !nodes[i].requiresGrad then []
    else (if i == j then [[]] else []) + EdgePaths(nodes, i, 0, j)
  }

  /** The paths from `i` to `j` whose first edge is at position `k` or later. */
  ghost function EdgePaths(nodes: seq<Node>, i: nat, k: nat, j: nat): seq<seq<nat>>
    requires Acyclic(nodes) && i < |nodes| && k <= |nodes[i].parents|
    decreases i, 0, |nodes[i].parents| - k
  {
    if k == |nodes[i].parents| then []
    else Prefixed(k, AllPaths(nodes, nodes[i].parents[k].parent, j)) + EdgePaths(nodes, i, k + 1, j)
  }

  /** The sum of the weights of the paths `ps` from `i`. */
  ghost function TotalWeight(nodes: seq<Node>, i: nat, ps: seq<seq<nat>>): real
    requires Acyclic(nodes) && i < |nodes|
    decreases |ps|
  {
    if ps == [] then 0.0 else PathWeight(nodes, i, ps[0]) + TotalWeight(nodes, i, ps[1..])
  }

  /** No path is listed twice. */
  ghost predicate Distinct(ps: seq<seq<nat>>)
  {
    forall a, b :: 0 <= a < b < |ps| ==> ps[a] != ps[b]
  }

  /** A path is in `Prefixed(k, ps)` exactly when it starts with `k` and
      continues with a path of `ps`. */
  lemma PrefixedMembership(k: nat, ps: seq<seq<nat>>, p: seq<nat>)
    ensures p in Prefixed(k, ps) <==> (p != [] && p[0] == k && p[1..] in ps)
  {
    var r := Prefixed(k, ps);
    if p != [] && p[0] == k && p[1..] in ps {
      var m :| 0 <= m < |ps| && ps[m] == p[1..];
      assert r[m] == [r[m][0]] + r[m][1..] == p;
    }
  }

  /** The enumeration lists exactly the paths from `i` to `j`. */
  lemma {:induction false} AllPathsAreThePaths(nodes: seq<Node>, i: nat, j: nat, p: seq<nat>)
    requires Acyclic(nodes) && i < |nodes|
    ensures p in AllPaths(nodes, i, j) <==> IsPath(nodes, i, j, p)
    decreases i, 1, 0
  {
    if nodes[i].requiresGrad {
      EdgePathsAreThePaths(nodes, i, 0, j, p);
    }
  }

  /** `EdgePaths(i, k, j)` lists exactly the paths from `i` to `j` whose
      first edge is at position `k` or later. */
  lemma {:induction false} EdgePathsAreThePaths(nodes: seq<Node>, i: nat, k: nat, j: nat, p: seq<nat>)
    requires Acyclic(nodes) && i < |nodes| && k <= |nodes[i].parents|
    ensures p in EdgePaths(nodes, i, k, j) <==>
      (p != [] && k <= p[0] < |nodes[i].parents| && IsPath(nodes, nodes[i].parents[p[0]].parent, j, p[1..]))
    decreases i, 0, |nodes[i].parents| - k
  {
    if k < |nodes[i].parents| {
      var parent := nodes[i].parents[k].parent;
      EdgePathsAreThePaths(nodes, i, k + 1, j, p);
      PrefixedMembership(k, AllPaths(nodes, parent, j), p);
      if p != [] && p[0] == k {
        AllPathsAreThePaths(nodes, parent, j, p[1..]);
      }
    }
  }

  /** Two duplicate-free lists with no path in common concatenate to one. */
  lemma DistinctConcat(x: seq<seq<nat>>, y: seq<seq<nat>>)
    requires Distinct(x) && Distinct(y)
    requires forall q :: q in x ==> q !in y
    ensures Distinct(x + y)
  {
    forall a, b | 0 <= a < b < |x + y|
      ensures (x + y)[a] != (x + y)[b]
    {
      if a < |x| && |x| <= b {
        assert (x + y)[a] in x && (x + y)[b] in y;
      }
    }
  }

  /** Putting the same edge in front keeps paths apart. */
  lemma DistinctPrefixed(k: nat, ps: seq<seq<nat>>)
    requires Distinct(ps)
    ensures Distinct(Prefixed(k, ps))
  {
  }

  /** The enumeration lists no path twice. */
  lemma {:induction false} AllPathsDistinct(nodes: seq<Node>, i: nat, j: nat)
    requires Acyclic(nodes) && i < |nodes|
    ensures Distinct(AllPaths(nodes, i, j))
    decreases i, 1, 0
  {
    if nodes[i].requiresGrad {
      var rest := EdgePaths(nodes, i, 0, j);
      EdgePathsDistinct(nodes, i, 0, j);
      forall q | q in rest
        ensures q != []
      {
        EdgePathsAreThePaths(nodes, i, 0, j, q);
      }
      DistinctConcat(if i == j then [[]] else [], rest);
    }
  }

  lemma {:induction false} EdgePathsDistinct(nodes: seq<Node>, i: nat, k: nat, j: nat)
    requires Acyclic(nodes) && i < |nodes| && k <= |nodes[i].parents|
    ensures Distinct(EdgePaths(nodes, i, k, j))
    decreases i, 0, |nodes[i].parents| - k
  {
    if k < |nodes[i].parents| {
      var ps := AllPaths(nodes, nodes[i].parents[k].parent, j);
      var rest := EdgePaths(nodes, i, k + 1, j);
      AllPathsDistinct(nodes, nodes[i].parents[k].parent, j);
      DistinctPrefixed(k, ps);
      EdgePathsDistinct(nodes, i, k + 1, j);
      forall q | q in Prefixed(k, ps)
        ensures q !in rest
      {
        PrefixedMembership(k, ps, q);
        EdgePathsAreThePaths(nodes, i, k + 1, j, q);
      }
      DistinctConcat(Prefixed(k, ps), rest);
    }
  }

  /** Total weight is additive over concatenation. */
  lemma {:induction false} TotalWeightConcat(nodes: seq<Node>, i: nat, x: seq<seq<nat>>, y: seq<seq<nat>>)
    requires Acyclic(nodes) && i < |nodes|
    ensures TotalWeight(nodes, i, x + y) == TotalWeight(nodes, i, x) + TotalWeight(nodes, i, y)
    decreases |x|
  {
    if x == [] {
      assert x + y == y;
    } else {
      assert (x + y)[0] == x[0] && (x + y)[1..] == x[1..] + y;
      TotalWeightConcat(nodes, i, x[1..], y);
    }
  }

  /** Following the edge at position `k` first multiplies every path's
      weight by that edge's weight. */
  lemma {:induction false} TotalWeightPrefixed(nodes: seq<Node>, i: nat, k: nat, ps: seq<seq<nat>>)
    requires Acyclic(nodes) && i < |nodes| && k < |nodes[i].parents|
    ensures TotalWeight(nodes, i, Prefixed(k, ps))
      == nodes[i].parents[k].weight * TotalWeight(nodes, nodes[i].parents[k].parent, ps)
    decreases |ps|
  {
    if ps != [] {
      var e := nodes[i].parents[k];
      var r := Prefixed(k, ps);
      assert r[1..] == Prefixed(k, ps[1..]);
      TotalWeightPrefixed(nodes, i, k, ps[1..]);
      assert PathWeight(nodes, i, r[0]) == e.weight * PathWeight(nodes, e.parent, ps[0]);
      var a, b := PathWeight(nodes, e.parent, ps[0]), TotalWeight(nodes, e.parent, ps[1..]);
      assert e.weight * a + e.weight * b == e.weight * (a + b);
    }
  }

  /** `PathSum` is the total weight of the enumerated paths. */
  lemma {:induction false} PathSumIsTotalWeight(nodes: seq<Node>, i: nat, j: nat)
    requires Acyclic(nodes) && i < |nodes|
    ensures PathSum(nodes, i, j) == TotalWeight(nodes, i, AllPaths(nodes, i, j))
    decreases i, 1, 0
  {
    if nodes[i].requiresGrad {
      var es := nodes[i].parents;
      assert es[0..] == es;
      EdgePathsTotal(nodes, i, 0, j);
      TotalWeightConcat(nodes, i, if i == j then [[]] else [], EdgePaths(nodes, i, 0, j));
    }
  }

  lemma {:induction false} EdgePathsTotal(nodes: seq<Node>, i: nat, k: nat, j: nat)
    requires Acyclic(nodes) && i < |nodes| && k <= |nodes[i].parents|
    ensures PointBelow(nodes[i].parents[k..], i)
    ensures EdgePathSum(nodes, i, nodes[i].parents[k..], j) == TotalWeight(nodes, i, EdgePaths(nodes, i, k, j))
    decreases i, 0, |nodes[i].parents| - k + 1
  {
    var es := nodes[i].parents;
    if k < |es| {
      var pre := Prefixed(k, AllPaths(nodes, es[k].parent, j));
      var rest := EdgePaths(nodes, i, k + 1, j);
      assert EdgePaths(nodes, i, k, j) == pre + rest;
      EdgePathSumSuffix(nodes, i, k, j);
      EdgePathsTotal(nodes, i, k + 1, j);
      EdgeTotal(nodes, i, k, j);
      TotalWeightConcat(nodes, i, pre, rest);
    } else {
      assert es[k..] == [];
    }
  }

  /** The paths through the edge at position `k` weigh that edge's weight
      times the path sum from its parent. */
  lemma {:induction false} EdgeTotal(nodes: seq<Node>, i: nat, k: nat, j: nat)
    requires Acyclic(nodes) && i < |nodes| && k < |nodes[i].parents|
    ensures TotalWeight(nodes, i, Prefixed(k, AllPaths(nodes, nodes[i].parents[k].parent, j)))
      == nodes[i].parents[k].weight * PathSum(nodes, nodes[i].parents[k].parent, j)
    decreases i, 0, |nodes[i].parents| - k
  {
    var e := nodes[i].parents[k];
    PathSumIsTotalWeight(nodes, e.parent, j);
    TotalWeightPrefixed(nodes, i, k, AllPaths(nodes, e.parent, j));
  }

  /** The path sum through the edges of `i` from position `k` on, with the
      edge at `k` taken off the front. */
  lemma EdgePathSumSuffix(nodes: seq<Node>, i: nat, k: nat, j: nat)
    requires Acyclic(nodes) && i < |nodes| && k < |nodes[i].parents|
    ensures PointBelow(nodes[i].parents[k..], i) && PointBelow(nodes[i].parents[k + 1..], i)
    ensures EdgePathSum(nodes, i, nodes[i].parents[k..], j)
      == nodes[i].parents[k].weight * PathSum(nodes, nodes[i].parents[k].parent, j)
         + EdgePathSum(nodes, i, nodes[i].parents[k + 1..], j)
  {
    var es := nodes[i].parents;
    assert PointBelow(es, i);
    assert es[k..][0] == es[k] && es[k..][1..] == es[k + 1..];
  }

  /** The chain rule over explicit paths: `backward(s)` from `i` raises the
      gradient of `j` by `s` times the summed weight of the listed paths,
      which are all the paths from `i` to `j`, each listed once. */
  lemma BackwardSumsOverPaths(nodes: seq<Node>, grads: seq<real>, i: nat, s: real, j: nat)
    requires Acyclic(nodes) && |grads| == |nodes| && i < |nodes| && j < |nodes|
    ensures Distinct(AllPaths(nodes, i, j))
    ensures forall p :: p in AllPaths(nodes, i, j) <==> IsPath(nodes, i, j, p)
    ensures Backward(nodes, grads, i, s)[j] == grads[j] + s * TotalWeight(nodes, i, AllPaths(nodes, i, j))
  {
    AllPathsDistinct(nodes, i, j);
    forall p
      ensures p in AllPaths(nodes, i, j) <==> IsPath(nodes, i, j, p)
    {
      AllPathsAreThePaths(nodes, i, j, p);
    }
    BackwardIsChainRule(nodes, grads, i, s, j);
    PathSumIsTotalWeight(nodes, i, j);
  }

  /** `j` is reachable from `i` through participating nodes exactly when
      some path leads from `i` to `j`. */
  lemma ReachesIffPath(nodes: seq<Node>, i: nat, j: nat)
    requires Acyclic(nodes) && i < |nodes|
    ensures Reaches(nodes, i, j) ==> exists p: seq<nat> :: IsPath(nodes, i, j, p)
    ensures (exists p: seq<nat> :: IsPath(nodes, i, j, p)) ==> Reaches(nodes, i, j)
  {
    if Reaches(nodes, i, j) {
      var p := ReachesHasPath(nodes, i, j);
      assert IsPath(nodes, i, j, p);
    } else {
      forall p | IsPath(nodes, i, j, p)
        ensures false
      {
        PathReaches(nodes, i, j, p);
      }
    }
  }

  /** A reachable node has a path to it. */
  lemma {:induction false} ReachesHasPath(nodes: seq<Node>, i: nat, j: nat) returns (p: seq<nat>)
    requires Acyclic(nodes) && i < |nodes| && Reaches(nodes, i, j)
    ensures IsPath(nodes, i, j, p)
    decreases i
  {
    if i == j {
      p := [];
    } else {
      var k :| 0 <= k < |nodes[i].parents| && Reaches(nodes, nodes[i].parents[k].parent, j);
      var q := ReachesHasPath(nodes, nodes[i].parents[k].parent, j);
      p := [k] + q;
      assert p[0] == k && p[1..] == q;
    }
  }

  /** The end of a path is reachable from its start. */
  lemma {:induction false} PathReaches(nodes: seq<Node>, i: nat, j: nat, p: seq<nat>)
    requires Acyclic(nodes) && i < |nodes| && IsPath(nodes, i, j, p)
    ensures Reaches(nodes, i, j)
    decreases |p|
  {
    if p != [] {
      PathReaches(nodes, nodes[i].parents[p[0]].parent, j, p[1..]);
    }
  }
}
