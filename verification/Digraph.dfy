/** Directed graphs given by adjacency lists: walks, cycles and topological orders. */
module Digraph {
  import opened Basics

  type Graph = map<string, seq<string>>

  /** Neighbours of a node; a node without an entry has none. */
  function Succ(g: Graph, node: string): seq<string> {
    if node in g then g[node] else []
  }

  predicate Walk(g: Graph, p: seq<string>) {
    forall i :: 0 <= i < |p| - 1 ==> p[i + 1] in Succ(g, p[i])
  }

  predicate IsCycle(g: Graph, p: seq<string>) {
    |p| >= 2 && p[0] == p[|p| - 1] && Walk(g, p)
  }

  /** Some directed cycle exists; a self-loop is one. */
  ghost predicate Cyclic(g: Graph) {
    exists p :: IsCycle(g, p)
  }

  function Elements(s: seq<string>): set<string> {
    set x | x in s
  }

  /** No node is listed twice, and a node's neighbours that have an entry of their own come before it. */
  ghost predicate Topological(g: Graph, order: seq<string>) {
    && Distinct(order)
    && forall i, next :: 0 <= i < |order| && next in Succ(g, order[i]) && next in g ==> next in order[..i]
  }

  ghost predicate Covers(g: Graph, order: seq<string>) {
    forall node :: node in g ==> node in order
  }

  /** Along a cycle positions in a topological order would fall for ever. */
  lemma {:induction false} TopologicalMeansAcyclic(g: Graph, order: seq<string>)
    requires Topological(g, order) && Covers(g, order)
    ensures !Cyclic(g)
  {
    if Cyclic(g) {
      var p :| IsCycle(g, p);
      assert p[1] in Succ(g, p[0]);
      var start :| 0 <= start < |order| && order[start] == p[0];
      PositionsFall(g, order, p, |p| - 1, start);
    }
  }

  /** From position `start` every later node of the cycle sits strictly earlier in the order. */
  lemma {:induction false} PositionsFall(g: Graph, order: seq<string>, p: seq<string>, k: nat, start: nat)
    requires Topological(g, order) && IsCycle(g, p)
    requires start < |order| && order[start] == p[0]
    requires 1 <= k < |p|
    ensures p[k] in order[..start]
    decreases k
  {
    assert p[k] in Succ(g, p[k - 1]);
    assert p[k] in g by {
      if k < |p| - 1 {
        assert p[k + 1] in Succ(g, p[k]);
      } else {
        assert p[1] in Succ(g, p[0]);
      }
    }
    if k > 1 {
      PositionsFall(g, order, p, k - 1, start);
      var i :| 0 <= i < start && order[i] == p[k - 1];
      assert p[k] in order[..i];
    }
  }

  /** A node met again while it is still on the path closes a cycle. */
  lemma {:induction false} PathClosesCycle(g: Graph, stack: seq<string>, node: string)
    requires Walk(g, stack) && node in stack
    requires node in Succ(g, stack[|stack| - 1])
    ensures Cyclic(g)
  {
    var k :| 0 <= k < |stack| && stack[k] == node;
    var p := stack[k..] + [node];
    forall i | 0 <= i < |p| - 1
      ensures p[i + 1] in Succ(g, p[i])
    {
      if i < |p| - 2 {
        assert stack[k + i + 1] in Succ(g, stack[k + i]);
      }
    }
    assert IsCycle(g, p);
  }

  lemma {:induction false} WalkExtends(g: Graph, stack: seq<string>, node: string)
    requires Walk(g, stack)
    requires stack != [] ==> node in Succ(g, stack[|stack| - 1])
    ensures Walk(g, stack + [node])
  {
  }

  /** A finished node goes last: all its neighbours with an entry are already listed. */
  lemma {:induction false} TopologicalExtends(g: Graph, order: seq<string>, node: string)
    requires Topological(g, order) && node !in order
    requires forall next :: next in Succ(g, node) && next in g ==> next in order
    ensures Topological(g, order + [node])
  {
    var longer := order + [node];
    forall i, next | 0 <= i < |longer| && next in Succ(g, longer[i]) && next in g
      ensures next in longer[..i]
    {
      assert longer[..i] == order[..i];
    }
  }

  // ----- edge lists ---------------------------------------------------------

  type Edges = seq<(string, string)>

  predicate EdgeCycle(edges: Edges, p: seq<string>) {
    |p| >= 2 && p[0] == p[|p| - 1] && forall i :: 0 <= i < |p| - 1 ==> (p[i], p[i + 1]) in edges
  }

  /** The adjacency lists hold exactly the listed edges. */
  ghost predicate SameEdges(g: Graph, edges: Edges) {
    forall a, b :: b in Succ(g, a) <==> (a, b) in edges
  }

  lemma {:induction false} CyclesAgree(g: Graph, edges: Edges)
    requires SameEdges(g, edges)
    ensures Cyclic(g) <==> exists p :: EdgeCycle(edges, p)
  {
    forall p
      ensures IsCycle(g, p) <==> EdgeCycle(edges, p)
    {
    }
  }
}
