/** The pre-activation smoke test of a domain, with its dependency-graph gate. */
module SmokeTest {
  import opened Basics
  import opened Digraph
  import opened DomainModel

  // ----- the step graph -----------------------------------------------------

  function AllSteps(workflows: seq<Workflow>): seq<StepTemplate> {
    if workflows == [] then [] else AllSteps(workflows[..|workflows| - 1]) + workflows[|workflows| - 1].steps
  }

  /** Dependencies by step name; a later step of the same name replaces an earlier one. */
  function StepGraph(steps: seq<StepTemplate>): Graph {
    if steps == [] then map[]
    else
      var last := steps[|steps| - 1];
      StepGraph(steps[..|steps| - 1])[last.stepName := last.dependsOn]
  }

  lemma {:induction false} EmptyStepGraph()
    ensures StepGraph([]) == map[]
  {
  }

  lemma {:induction false} StepGraphSnoc(steps: seq<StepTemplate>, step: StepTemplate)
    ensures StepGraph(steps + [step]) == StepGraph(steps)[step.stepName := step.dependsOn]
  {
    assert (steps + [step])[..|steps|] == steps;
  }

  ghost predicate HasCircularDependency(workflows: seq<Workflow>) {
    Cyclic(StepGraph(AllSteps(workflows)))
  }

  /** The closure `dfs` and the state it shares between calls; unlike the trigger search it goes on
      after a hit. */
  class StepVisitor {
    const graph: Graph
    var visiting: set<string>
    var visited: set<string>
    var hasCycle: bool
    ghost var stack: seq<string>
    ghost var finished: seq<string>

    ghost predicate Valid()
      reads this
    {
      && visiting == Elements(stack) && Walk(graph, stack)
      && visiting !! visited
      && (hasCycle ==> Cyclic(graph))
      && (!hasCycle ==> visited == Elements(finished) && Topological(graph, finished))
    }

    constructor (graph: Graph)
      ensures Valid() && this.graph == graph && !hasCycle
      ensures stack == [] && visited == {}
    {
      this.graph := graph;
      visiting, visited, hasCycle := {}, {}, false;
      stack, finished := [], [];
    }

    method Dfs(stepName: string)
      requires Valid()
      requires stack != [] ==> stepName in Succ(graph, stack[|stack| - 1])
      modifies this
      ensures Valid()
      ensures stack == old(stack) && visiting == old(visiting) && old(visited) <= visited
      ensures old(hasCycle) ==> hasCycle
      ensures !hasCycle ==> stepName in visited
      decreases graph.Keys - visiting
    {
      hide Topological, Walk, Cyclic;
      if stepName in visiting {
        PathClosesCycle(graph, stack, stepName);
        hasCycle := true;
        return;
      }
      if stepName in visited {
        return;
      }
      WalkExtends(graph, stack, stepName);
      visiting := visiting + {stepName};
      stack := stack + [stepName];
      var dependencies := Succ(graph, stepName);
      for i := 0 to |dependencies|
        invariant Valid()
        invariant stack == old(stack) + [stepName] && visiting == old(visiting) + {stepName}
        invariant old(visited) <= visited
        invariant old(hasCycle) ==> hasCycle
        invariant !hasCycle ==> forall j :: 0 <= j < i && dependencies[j] in graph ==> dependencies[j] in visited
      {
        if dependencies[i] in graph {
          assert stepName in graph.Keys - old(visiting);
          Dfs(dependencies[i]);
        }
      }
      visiting := visiting - {stepName};
      visited := visited + {stepName};
      if !hasCycle {
        TopologicalExtends(graph, finished, stepName);
      }
      stack, finished := old(stack), finished + [stepName];
    }
  }

  method BuildStepGraph(workflows: seq<Workflow>) returns (graph: Graph, stepIds: seq<string>)
    ensures graph == StepGraph(AllSteps(workflows))
    ensures forall name :: name in graph <==> name in stepIds
  {
    hide StepGraph;
    assert StepGraph([]) == map[] by { EmptyStepGraph(); }
    graph, stepIds := map[], [];
    for w := 0 to |workflows|
      invariant graph == StepGraph(AllSteps(workflows[..w]))
      invariant forall name :: name in graph <==> name in stepIds
    {
      var steps := workflows[w].steps;
      ghost var before := AllSteps(workflows[..w]);
      assert before + steps[..0] == before;
      for i := 0 to |steps|
        invariant graph == StepGraph(before + steps[..i])
        invariant forall name :: name in graph <==> name in stepIds
      {
        if steps[i].stepName !in stepIds {
          stepIds := stepIds + [steps[i].stepName];
        }
        graph := graph[steps[i].stepName := steps[i].dependsOn];
        StepGraphSnoc(before + steps[..i], steps[i]);
        assert before + steps[..i + 1] == before + steps[..i] + [steps[i]];
      }
      assert steps[..|steps|] == steps;
      assert workflows[..w + 1][..w] == workflows[..w];
    }
    assert workflows[..|workflows|] == workflows;
  }

  /** Passes exactly when the step graph has no directed cycle, and then yields a topological order. */
  method ValidateDependencyGraph(workflows: seq<Workflow>) returns (passed: bool, ghost order: seq<string>)
    ensures passed <==> !HasCircularDependency(workflows)
    ensures passed ==> Topological(StepGraph(AllSteps(workflows)), order) && Covers(StepGraph(AllSteps(workflows)), order)
  {
    hide Topological, Walk, Cyclic, StepGraph;
    var graph, stepIds := BuildStepGraph(workflows);
    var visitor := new StepVisitor(graph);
    for i := 0 to |stepIds|
      invariant visitor.Valid() && visitor.stack == [] && visitor.graph == graph
      invariant !visitor.hasCycle ==> forall j :: 0 <= j < i ==> stepIds[j] in visitor.visited
    {
      visitor.Dfs(stepIds[i]);
    }
    order := visitor.finished;
    if !visitor.hasCycle {
      TopologicalMeansAcyclic(graph, order);
    }
    return !visitor.hasCycle, order;
  }

  /** The gate and the trigger feedback-loop detector answer the same question about the same edges. */
  lemma {:induction false} AgreesWithFeedbackLoop(workflows: seq<Workflow>, edges: Edges)
    requires SameEdges(StepGraph(AllSteps(workflows)), edges)
    ensures HasCircularDependency(workflows) <==> exists p :: EdgeCycle(edges, p)
  {
    CyclesAgree(StepGraph(AllSteps(workflows)), edges);
  }

  // ----- what passing means for one workflow --------------------------------

  predicate DistinctStepNames(steps: seq<StepTemplate>) {
    forall i, j :: 0 <= i < j < |steps| ==> steps[i].stepName != steps[j].stepName
  }

  predicate IsStepOf(w: Workflow, name: string) {
    exists i :: 0 <= i < |w.steps| && w.steps[i].stepName == name
  }

  /** In `order`, a step comes after the steps of the same workflow it depends on. */
  ghost predicate DependenciesFirst(w: Workflow, order: seq<string>) {
    forall k, i, dep :: (0 <= k < |w.steps| && 0 <= i < |order| && order[i] == w.steps[k].stepName
                         && dep in w.steps[k].dependsOn && IsStepOf(w, dep)) ==> dep in order[..i]
  }

  /** `order` lists each step of the workflow once, after the steps of the workflow it depends on. */
  ghost predicate OrdersWorkflow(w: Workflow, order: seq<string>) {
    && Distinct(order)
    && (forall name :: name in order <==> IsStepOf(w, name))
    && DependenciesFirst(w, order)
  }

  function KeepSteps(w: Workflow, order: seq<string>): (kept: seq<string>)
    ensures forall name :: name in kept <==> name in order && IsStepOf(w, name)
  {
    if order == [] then []
    else
      var last := order[|order| - 1];
      assert order == order[..|order| - 1] + [last];
      KeepSteps(w, order[..|order| - 1]) + (if IsStepOf(w, last) then [last] else [])
  }

  lemma {:induction false} StepLookup(steps: seq<StepTemplate>, k: nat)
    requires DistinctStepNames(steps) && k < |steps|
    ensures steps[k].stepName in StepGraph(steps) && StepGraph(steps)[steps[k].stepName] == steps[k].dependsOn
  {
    if k < |steps| - 1 {
      StepLookup(steps[..|steps| - 1], k);
    }
  }

  lemma {:induction false} WorkflowStep(workflows: seq<Workflow>, w: nat, k: nat) returns (at: nat)
    requires w < |workflows| && k < |workflows[w].steps|
    ensures at < |AllSteps(workflows)| && AllSteps(workflows)[at] == workflows[w].steps[k]
  {
    var init := workflows[..|workflows| - 1];
    if w < |init| {
      at := WorkflowStep(init, w, k);
    } else {
      at := |AllSteps(init)| + k;
    }
  }

  lemma {:induction false} KeptOrder(g: Graph, w: Workflow, order: seq<string>)
    requires Topological(g, order)
    requires forall k :: 0 <= k < |w.steps| ==>
               w.steps[k].stepName in g && g[w.steps[k].stepName] == w.steps[k].dependsOn
    ensures Distinct(KeepSteps(w, order)) && DependenciesFirst(w, KeepSteps(w, order))
  {
    if order == [] {
    } else {
      var init, last := order[..|order| - 1], order[|order| - 1];
      forall i, next | 0 <= i < |init| && next in Succ(g, init[i]) && next in g
        ensures next in init[..i]
      {
        assert next in order[..i] && init[..i] == order[..i];
      }
      KeptOrder(g, w, init);
      var short, kept := KeepSteps(w, init), KeepSteps(w, order);
      forall k, i, dep | 0 <= k < |w.steps| && 0 <= i < |kept| && kept[i] == w.steps[k].stepName
                         && dep in w.steps[k].dependsOn && IsStepOf(w, dep)
        ensures dep in kept[..i]
      {
        if i < |short| {
          assert kept[..i] == short[..i];
        } else {
          assert dep in Succ(g, last) && dep in order[..|order| - 1];
          assert kept[..i] == short;
        }
      }
    }
  }

  /** With step names distinct across workflows, a passing graph orders every single workflow. */
  lemma {:induction false} PassingOrdersEveryWorkflow(workflows: seq<Workflow>, order: seq<string>, w: nat)
    requires DistinctStepNames(AllSteps(workflows)) && w < |workflows|
    requires Topological(StepGraph(AllSteps(workflows)), order) && Covers(StepGraph(AllSteps(workflows)), order)
    ensures OrdersWorkflow(workflows[w], KeepSteps(workflows[w], order))
  {
    var g, flow := StepGraph(AllSteps(workflows)), workflows[w];
    forall k | 0 <= k < |flow.steps|
      ensures flow.steps[k].stepName in g && g[flow.steps[k].stepName] == flow.steps[k].dependsOn
    {
      var at := WorkflowStep(workflows, w, k);
      StepLookup(AllSteps(workflows), at);
    }
    KeptOrder(g, flow, order);
  }

  /** Without distinct names the gate can pass although a workflow is circular: the second workflow
      replaces the steps of the first. */
  lemma {:induction false} SharedNamesHideACycle() returns (workflows: seq<Workflow>)
    ensures |workflows| == 2
    ensures HasCircularDependency(workflows[..1]) && !HasCircularDependency(workflows)
  {
    var loop, plain := StepTemplate("a", ["a"]), StepTemplate("a", []);
    workflows := [Workflow("first", [loop]), Workflow("second", [plain])];
    assert workflows[..1][..0] == [];
    assert AllSteps(workflows[..1]) == [loop];
    assert AllSteps(workflows) == [loop, plain];
    StepGraphSnoc([], loop);
    StepGraphSnoc([loop], plain);
    assert [] + [loop] == [loop] && [loop] + [plain] == [loop, plain];
    assert IsCycle(StepGraph([loop]), ["a", "a"]);
    TopologicalMeansAcyclic(StepGraph([loop, plain]), ["a"]);
  }

  // ----- the whole smoke test -----------------------------------------------

  const RESTRICTED_TOOLS := ["file_write", "bash", "exec", "sql_execute"]

  predicate HasTool(bundles: seq<ToolBundle>, tool: string) {
    exists i :: 0 <= i < |bundles| && tool in bundles[i].tools
  }

  predicate SandboxCompatible(c: Capabilities) {
    (exists i :: 0 <= i < |c.requiredTools| && c.requiredTools[i] in RESTRICTED_TOOLS) ==> c.securityLevel == Restricted
  }

  predicate QuotasSufficient(c: Capabilities) {
    c.maxTokensPerTask >= 1000 && c.maxCostPerTask >= 0.01
  }

  predicate ProfileConsistent(p: ExecutionProfile) {
    && !(p.deterministicHotPath && p.llmInHotPathAllowed)
    && (p.deterministicPlanning ==> p.hasCompiledArtifact)
    && (p.realtime ==> p.maxHotPathLatencyMs <= 1000)
  }

  /** What it takes to pass; the status of the domain plays no part. */
  ghost predicate SmokePasses(d: Definition) {
    && d.workflows != [] && d.toolBundles != []
    && (forall i :: 0 <= i < |d.capabilities.requiredTools| ==> HasTool(d.toolBundles, d.capabilities.requiredTools[i]))
    && !HasCircularDependency(d.workflows)
    && SandboxCompatible(d.capabilities)
    && QuotasSufficient(d.capabilities)
    && ProfileConsistent(d.executionProfile)
  }

  datatype Issue = NoWorkflows | NoToolBundles | MissingRequiredTools | RuntimeChecksFailed

  method RunSmokeTest(d: Definition) returns (issues: seq<Issue>)
    ensures issues == [] <==> SmokePasses(d)
    ensures NoWorkflows in issues <==> d.workflows == []
    ensures NoToolBundles in issues <==> d.toolBundles == []
    ensures MissingRequiredTools in issues <==>
              exists i :: 0 <= i < |d.capabilities.requiredTools| && !HasTool(d.toolBundles, d.capabilities.requiredTools[i])
    ensures RuntimeChecksFailed in issues <==>
              var c, p := d.capabilities, d.executionProfile;
              || HasCircularDependency(d.workflows)
              || ((exists i :: 0 <= i < |c.requiredTools| && c.requiredTools[i] in ["file_write", "bash", "exec", "sql_execute"])
                  && c.securityLevel != Restricted)
              || c.maxTokensPerTask < 1000 || c.maxCostPerTask < 0.01
              || (p.deterministicHotPath && p.llmInHotPathAllowed)
              || (p.deterministicPlanning && !p.hasCompiledArtifact)
              || (p.realtime && p.maxHotPathLatencyMs > 1000)
  {
    issues := [];
    if |d.workflows| == 0 {
      issues := issues + [NoWorkflows];
    }
    if |d.toolBundles| == 0 {
      issues := issues + [NoToolBundles];
    }
    var tools := d.capabilities.requiredTools;
    if exists i :: 0 <= i < |tools| && !HasTool(d.toolBundles, tools[i]) {
      issues := issues + [MissingRequiredTools];
    }
    var acyclic, _ := ValidateDependencyGraph(d.workflows);
    if !(acyclic && SandboxCompatible(d.capabilities) && QuotasSufficient(d.capabilities) && ProfileConsistent(d.executionProfile)) {
      issues := issues + [RuntimeChecksFailed];
    }
  }
}
