/** Detection of feedback loops between proactive triggers: a depth-first search that stops at the
    first node it meets while that node is still being visited. */
module FeedbackLoop {
  import opened Digraph

  /** The closure `visit` and the two sets it shares between calls. */
  class TriggerVisitor {
    const graph: Graph
    var visiting: set<string>
    var visited: set<string>
    ghost var stack: seq<string>     // the nodes being visited, outermost first
    ghost var finished: seq<string>  // the visited nodes, in the order they were finished

    ghost predicate Valid()
      reads this
    {
      && visiting == Elements(stack) && Walk(graph, stack)
      && visited == Elements(finished) && Topological(graph, finished)
      && visiting !! visited
    }

    constructor (graph: Graph)
      ensures Valid() && this.graph == graph
      ensures visiting == {} && stack == [] && finished == []
    {
      this.graph := graph;
      visiting, visited, stack, finished := {}, {}, [], [];
    }

    method Visit(node: string) returns (loop: bool)
      requires Valid()
      requires stack != [] ==> node in Succ(graph, stack[|stack| - 1])
      modifies this
      ensures loop ==> Cyclic(graph)
      ensures !loop ==> Valid() && node in visited
      ensures !loop ==> stack == old(stack) && visiting == old(visiting) && old(finished) <= finished
      decreases graph.Keys - visiting
    {
      hide Topological, Walk, Cyclic;
      if node in visiting {
        PathClosesCycle(graph, stack, node);
        return true;
      }
      if node in visited {
        return false;
      }
      WalkExtends(graph, stack, node);
      visiting := visiting + {node};
      stack := stack + [node];
      var neighbours := Succ(graph, node);
      for i := 0 to |neighbours|
        invariant Valid()
        invariant stack == old(stack) + [node] && visiting == old(visiting) + {node}
        invariant old(finished) <= finished
        invariant forall j :: 0 <= j < i ==> neighbours[j] in visited
      {
        assert node in graph.Keys - old(visiting);
        ghost var done := finished;
        loop := Visit(neighbours[i]);
        if loop {
          return true;
        }
        assert Elements(done) <= visited;
      }
      visiting := visiting - {node};
      visited := visited + {node};
      TopologicalExtends(graph, finished, node);
      stack, finished := old(stack), finished + [node];
      return false;
    }
  }

  /** True exactly when the trigger edges contain a directed cycle. */
  method DetectTriggerFeedbackLoop(edges: Edges) returns (found: bool)
    ensures found <==> exists p :: EdgeCycle(edges, p)
  {
    var graph: Graph := map[];
    var keys: seq<string> := [];
    for i := 0 to |edges|
      invariant SameEdges(graph, edges[..i])
      invariant forall node :: node in graph <==> node in keys
    {
      var (from, to) := edges[i];
      if from !in graph {
        keys := keys + [from];
      }
      graph := graph[from := Succ(graph, from) + [to]];
      assert edges[..i + 1] == edges[..i] + [edges[i]];
    }
    assert edges[..|edges|] == edges;
    CyclesAgree(graph, edges);

    var visitor := new TriggerVisitor(graph);
    for i := 0 to |keys|
      invariant visitor.Valid() && visitor.stack == [] && visitor.graph == graph
      invariant forall j :: 0 <= j < i ==> keys[j] in visitor.visited
    {
      ghost var done := visitor.finished;
      found := visitor.Visit(keys[i]);
      if found {
        return true;
      }
      assert Elements(done) <= visitor.visited;
    }
    TopologicalMeansAcyclic(graph, visitor.finished);
    return false;
  }
}
