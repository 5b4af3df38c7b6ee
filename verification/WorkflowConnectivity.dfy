/** The structural checks on a loaded workflow: the orphan check and the breadth-first search over
    its undirected dependency graph. */
module WorkflowConnectivity {

  datatype Step = Step(stepId: string, dependsOn: seq<string>)

  datatype Verdict = Accepted | OrphanedStep(stepId: string) | DisconnectedStep(stepId: string)

  // ----- specification ------------------------------------------------------

  predicate IsStep(steps: seq<Step>, id: string) {
    exists i :: 0 <= i < |steps| && steps[i].stepId == id
  }

  predicate DependsOn(steps: seq<Step>, a: string, b: string) {
    exists i :: 0 <= i < |steps| && steps[i].stepId == a && b in steps[i].dependsOn
  }

  /** An undirected dependency edge between two steps of the workflow. */
  predicate Adjacent(steps: seq<Step>, a: string, b: string) {
    IsStep(steps, a) && IsStep(steps, b) && (DependsOn(steps, a, b) || DependsOn(steps, b, a))
  }

  predicate Path(steps: seq<Step>, p: seq<string>, a: string, b: string) {
    && p != [] && p[0] == a && p[|p| - 1] == b
    && forall i :: 0 <= i < |p| - 1 ==> Adjacent(steps, p[i], p[i + 1])
  }

  ghost predicate Linked(steps: seq<Step>, a: string, b: string) {
    exists p :: Path(steps, p, a, b)
  }

  /** Any two steps are joined by a path of dependencies, read in either direction. */
  ghost predicate Connected(steps: seq<Step>) {
    forall i, j :: 0 <= i < |steps| && 0 <= j < |steps| ==> Linked(steps, steps[i].stepId, steps[j].stepId)
  }

  predicate AllNamed(steps: seq<Step>) {
    forall i :: 0 <= i < |steps| ==> steps[i].stepId != []
  }

  /** No dependencies of its own, known or not, and no step depends on it. */
  predicate Orphan(steps: seq<Step>, i: nat)
    requires i < |steps|
  {
    steps[i].dependsOn == [] && forall j :: 0 <= j < |steps| ==> steps[i].stepId !in steps[j].dependsOn
  }

  predicate NoOrphans(steps: seq<Step>) {
    forall i: nat :: i < |steps| ==> !Orphan(steps, i)
  }

  // ----- paths --------------------------------------------------------------

  lemma {:induction false} LinkExtends(steps: seq<Step>, a: string, b: string, c: string)
    requires Linked(steps, a, b) && Adjacent(steps, b, c)
    ensures Linked(steps, a, c)
  {
    var p :| Path(steps, p, a, b);
    var longer := p + [c];
    forall i | 0 <= i < |longer| - 1
      ensures Adjacent(steps, longer[i], longer[i + 1])
    {
      if i < |p| - 1 {
        assert Adjacent(steps, p[i], p[i + 1]);
      }
    }
    assert Path(steps, longer, a, c);
  }

  lemma {:induction false} LinkReflexive(steps: seq<Step>, a: string)
    ensures Linked(steps, a, a)
  {
    assert Path(steps, [a], a, a);
  }

  /** A path from a set that is closed under adjacency stays inside it. */
  lemma {:induction false} PathStaysInside(steps: seq<Step>, inside: set<string>, p: seq<string>, a: string, b: string)
    requires Path(steps, p, a, b) && a in inside
    requires forall x, y :: x in inside && Adjacent(steps, x, y) ==> y in inside
    ensures b in inside
  {
    if |p| > 1 {
      var shorter := p[..|p| - 1];
      assert Path(steps, shorter, a, shorter[|shorter| - 1]);
      PathStaysInside(steps, inside, shorter, a, shorter[|shorter| - 1]);
      assert Adjacent(steps, p[|p| - 2], p[|p| - 1]);
    }
  }

  lemma {:induction false} LinkTransitive(steps: seq<Step>, a: string, b: string, c: string)
    requires Linked(steps, a, b) && Linked(steps, b, c)
    ensures Linked(steps, a, c)
  {
    var p :| Path(steps, p, b, c);
    LinkAppend(steps, a, b, c, p);
  }

  lemma {:induction false} LinkAppend(steps: seq<Step>, a: string, b: string, c: string, p: seq<string>)
    requires Linked(steps, a, b) && Path(steps, p, b, c)
    ensures Linked(steps, a, c)
    decreases |p|
  {
    if |p| > 1 {
      var shorter := p[..|p| - 1];
      assert Path(steps, shorter, b, shorter[|shorter| - 1]);
      LinkAppend(steps, a, b, shorter[|shorter| - 1], shorter);
      assert Adjacent(steps, p[|p| - 2], p[|p| - 1]);
      LinkExtends(steps, a, shorter[|shorter| - 1], c);
    }
  }

  lemma {:induction false} LinkSymmetric(steps: seq<Step>, a: string, b: string, p: seq<string>)
    requires Path(steps, p, a, b)
    ensures Linked(steps, b, a)
    decreases |p|
  {
    LinkReflexive(steps, b);
    if |p| > 1 {
      var mid, shorter := p[|p| - 2], p[..|p| - 1];
      assert Adjacent(steps, mid, b);
      LinkExtends(steps, b, b, mid);
      assert Path(steps, shorter, a, mid);
      LinkSymmetric(steps, a, mid, shorter);
      LinkTransitive(steps, b, mid, a);
    }
  }

  /** Reaching every step from the first one is the same as being connected. */
  lemma {:induction false} FirstReachesAll(steps: seq<Step>)
    requires steps != []
    ensures Connected(steps) <==> forall i :: 0 <= i < |steps| ==> Linked(steps, steps[0].stepId, steps[i].stepId)
  {
    if forall i :: 0 <= i < |steps| ==> Linked(steps, steps[0].stepId, steps[i].stepId) {
      forall i, j | 0 <= i < |steps| && 0 <= j < |steps|
        ensures Linked(steps, steps[i].stepId, steps[j].stepId)
      {
        var p :| Path(steps, p, steps[0].stepId, steps[i].stepId);
        LinkSymmetric(steps, steps[0].stepId, steps[i].stepId, p);
        LinkTransitive(steps, steps[i].stepId, steps[0].stepId, steps[j].stepId);
      }
    }
  }

  // ----- the undirected graph -----------------------------------------------

  type Graph = map<string, seq<string>>

  function AddEdge(g: Graph, a: string, b: string): Graph {
    if a in g && b !in g[a] then g[a := g[a] + [b]] else g
  }

  /** Edges contributed by the first `n` steps and by the first `m` dependencies of step `n`. */
  predicate EdgeSoFar(steps: seq<Step>, n: nat, m: nat, a: string, b: string)
    requires n < |steps| && m <= |steps[n].dependsOn|
  {
    && IsStep(steps, a) && IsStep(steps, b)
    && (DependsOn(steps[..n], a, b) || DependsOn(steps[..n], b, a)
        || (a == steps[n].stepId && b in steps[n].dependsOn[..m])
        || (b == steps[n].stepId && a in steps[n].dependsOn[..m]))
  }

  lemma {:induction false} DependsOnSnoc(steps: seq<Step>, n: nat, a: string, b: string)
    requires n < |steps|
    ensures DependsOn(steps[..n + 1], a, b) <==>
            DependsOn(steps[..n], a, b) || (steps[n].stepId == a && b in steps[n].dependsOn)
  {
    var longer, shorter := steps[..n + 1], steps[..n];
    assert longer[n] == steps[n];
    assert forall i :: 0 <= i < n ==> longer[i] == shorter[i];
  }

  method BuildGraph(steps: seq<Step>) returns (g: Graph)
    ensures forall a :: a in g <==> IsStep(steps, a)
    ensures forall a, b :: a in g ==> (b in g[a] <==> Adjacent(steps, a, b))
  {
    hide IsStep;
    g := EmptyGraph(steps);
    for n := 0 to |steps|
      invariant forall a :: a in g <==> IsStep(steps, a)
      invariant forall a, b :: a in g ==>
        (b in g[a] <==> IsStep(steps, b) && (DependsOn(steps[..n], a, b) || DependsOn(steps[..n], b, a)))
    {
      g := AddDependencies(steps, n, g);
      forall a, b | a in g
        ensures b in g[a] <==> IsStep(steps, b) && (DependsOn(steps[..n + 1], a, b) || DependsOn(steps[..n + 1], b, a))
      {
        DependsOnSnoc(steps, n, a, b);
        DependsOnSnoc(steps, n, b, a);
        assert steps[n].dependsOn[..|steps[n].dependsOn|] == steps[n].dependsOn;
      }
    }
    assert steps[..|steps|] == steps;
  }

  method EmptyGraph(steps: seq<Step>) returns (g: Graph)
    ensures forall a :: a in g <==> IsStep(steps, a)
    ensures forall a :: a in g ==> g[a] == []
  {
    g := map[];
    for n := 0 to |steps|
      invariant forall a :: a in g <==> exists i :: 0 <= i < n && steps[i].stepId == a
      invariant forall a :: a in g ==> g[a] == []
    {
      g := g[steps[n].stepId := []];
    }
  }

  method AddDependencies(steps: seq<Step>, n: nat, before: Graph) returns (g: Graph)
    requires n < |steps|
    requires forall a :: a in before <==> IsStep(steps, a)
    requires forall a, b :: a in before ==> (b in before[a] <==> EdgeSoFar(steps, n, 0, a, b))
    ensures forall a :: a in g <==> IsStep(steps, a)
    ensures forall a, b :: a in g ==> (b in g[a] <==> EdgeSoFar(steps, n, |steps[n].dependsOn|, a, b))
  {
    hide IsStep, DependsOn;
    g := before;
    var id, dependencies := steps[n].stepId, steps[n].dependsOn;
    assert id in g by { StepIsStep(steps, n); }
    for m := 0 to |dependencies|
      invariant forall a :: a in g <==> IsStep(steps, a)
      invariant forall a, b :: a in g ==> (b in g[a] <==> EdgeSoFar(steps, n, m, a, b))
    {
      var dependency := dependencies[m];
      assert dependencies[..m + 1] == dependencies[..m] + [dependency];
      if dependency in g {
        g := AddEdge(AddEdge(g, id, dependency), dependency, id);
      }
    }
  }

  lemma {:induction false} StepIsStep(steps: seq<Step>, n: nat)
    requires n < |steps|
    ensures IsStep(steps, steps[n].stepId)
  {
  }

  // ----- the search ---------------------------------------------------------

  /** Visits exactly the steps linked to the first one, provided no step is unnamed. */
  method Search(steps: seq<Step>, g: Graph) returns (visited: set<string>)
    requires steps != []
    requires forall a :: a in g <==> IsStep(steps, a)
    requires forall a, b :: a in g ==> (b in g[a] <==> Adjacent(steps, a, b))
    ensures [] !in visited
    ensures AllNamed(steps) ==> forall id :: id in visited <==> Linked(steps, steps[0].stepId, id)
  {
    hide IsStep, DependsOn, Path;
    var first := steps[0].stepId;
    LinkReflexive(steps, first);
    StepIsStep(steps, 0);
    var queue := [first];
    visited := {};
    while queue != []
      invariant [] !in visited
      invariant first in visited || first in queue || first == []
      invariant forall id :: id in visited || id in queue ==> id in g && Linked(steps, first, id)
      invariant forall a, b :: a in visited && b in g[a] ==> b in visited || b in queue || b == []
      decreases g.Keys - visited, |queue|
    {
      var id := queue[0];
      assert queue == [id] + queue[1..];
      queue := queue[1..];
      if id == [] || id in visited {
        continue;
      }
      visited := visited + {id};
      var neighbours := g[id];
      for i := 0 to |neighbours|
        invariant forall x :: x in queue ==> x in g && Linked(steps, first, x)
        invariant forall a, b :: a in visited && a != id && b in g[a] ==> b in visited || b in queue || b == []
        invariant forall j :: 0 <= j < i ==> neighbours[j] in visited || neighbours[j] in queue
        invariant first in visited || first in queue || first == []
      {
        if neighbours[i] !in visited {
          LinkExtends(steps, first, id, neighbours[i]);
          queue := queue + [neighbours[i]];
        }
      }
    }
    if AllNamed(steps) {
      assert first in visited;
      forall a, b | a in visited && Adjacent(steps, a, b)
        ensures b in visited
      {
        NamedSteps(steps, b);
      }
      LinkedInside(steps, visited, first);
    }
  }

  lemma {:induction false} NamedSteps(steps: seq<Step>, id: string)
    requires AllNamed(steps) && IsStep(steps, id)
    ensures id != []
  {
  }

  lemma {:induction false} LinkedInside(steps: seq<Step>, inside: set<string>, first: string)
    requires first in inside
    requires forall x, y :: x in inside && Adjacent(steps, x, y) ==> y in inside
    ensures forall id :: Linked(steps, first, id) ==> id in inside
  {
    forall id | Linked(steps, first, id)
      ensures id in inside
    {
      var p :| Path(steps, p, first, id);
      PathStaysInside(steps, inside, p, first, id);
    }
  }

  // ----- the checks on one workflow -----------------------------------------

  /** A workflow of several steps is accepted exactly when it has no orphan, no unnamed step and a
      connected dependency graph; a workflow of one step or none is always accepted. */
  method ValidateStructure(steps: seq<Step>) returns (r: Verdict)
    ensures |steps| <= 1 ==> r == Accepted
    ensures |steps| > 1 ==> (r == Accepted <==> NoOrphans(steps) && AllNamed(steps) && Connected(steps))
    ensures r.OrphanedStep? <==> |steps| > 1 && !NoOrphans(steps)
    ensures r.OrphanedStep? ==> exists i: nat :: i < |steps| && FirstOrphan(steps, i) && r.stepId == steps[i].stepId
    ensures r.DisconnectedStep? && AllNamed(steps) ==>
              exists i: nat :: i < |steps| && FirstUnlinked(steps, i) && r.stepId == steps[i].stepId
  {
    hide Adjacent, Linked, Connected;
    var referencedBy := CollectReferences(steps);
    for i := 0 to |steps|
      invariant |steps| > 1 ==> forall j: nat :: j < i ==> !Orphan(steps, j)
    {
      if |steps[i].dependsOn| == 0 && steps[i].stepId !in referencedBy && |steps| > 1 {
        assert FirstOrphan(steps, i);
        return OrphanedStep(steps[i].stepId);
      }
    }
    if |steps| <= 1 {
      return Accepted;
    }
    var graph := BuildGraph(steps);
    var visited := Search(steps, graph);
    for i := 0 to |steps|
      invariant forall j :: 0 <= j < i ==> steps[j].stepId in visited
    {
      if steps[i].stepId !in visited {
        if AllNamed(steps) {
          FirstReachesAll(steps);
          assert FirstUnlinked(steps, i);
        }
        return DisconnectedStep(steps[i].stepId);
      }
    }
    assert AllNamed(steps);
    FirstReachesAll(steps);
    return Accepted;
  }

  predicate FirstOrphan(steps: seq<Step>, i: nat)
    requires i < |steps|
  {
    Orphan(steps, i) && forall j: nat :: j < i ==> !Orphan(steps, j)
  }

  ghost predicate FirstUnlinked(steps: seq<Step>, i: nat)
    requires i < |steps|
  {
    && !Linked(steps, steps[0].stepId, steps[i].stepId)
    && forall j :: 0 <= j < i ==> Linked(steps, steps[0].stepId, steps[j].stepId)
  }

  method CollectReferences(steps: seq<Step>) returns (referenced: set<string>)
    ensures forall id :: id in referenced <==> IsStep(steps, id) && exists j :: 0 <= j < |steps| && id in steps[j].dependsOn
  {
    var stepIds := set i | 0 <= i < |steps| :: steps[i].stepId;
    referenced := {};
    for n := 0 to |steps|
      invariant forall id :: id in referenced <==> IsStep(steps, id) && exists j :: 0 <= j < n && id in steps[j].dependsOn
    {
      var dependencies := steps[n].dependsOn;
      ghost var before := referenced;
      for m := 0 to |dependencies|
        invariant forall id :: id in referenced <==> id in before || (IsStep(steps, id) && id in dependencies[..m])
      {
        if dependencies[m] in stepIds {
          referenced := referenced + {dependencies[m]};
        }
      }
      assert dependencies[..|dependencies|] == dependencies;
    }
  }

  // ----- when the orphan check is redundant ---------------------------------

  predicate DistinctIds(steps: seq<Step>) {
    forall i, j :: 0 <= i < j < |steps| ==> steps[i].stepId != steps[j].stepId
  }

  predicate SharesId(steps: seq<Step>, i: nat)
    requires i < |steps|
  {
    exists j :: 0 <= j < |steps| && j != i && steps[j].stepId == steps[i].stepId
  }

  /** In a connected workflow an orphan always shares its id with another step: such a workflow has an
      orphan exactly when a step with a repeated id is one. So with distinct ids the orphan check rejects
      only workflows the search rejects as well, and acceptance is exactly connectedness. */
  lemma {:induction false} OrphanCheckRedundant(steps: seq<Step>)
    requires |steps| > 1 && Connected(steps)
    ensures NoOrphans(steps) <==> forall i: nat :: i < |steps| && SharesId(steps, i) ==> !Orphan(steps, i)
    ensures DistinctIds(steps) ==> NoOrphans(steps)
  {
    forall i: nat | i < |steps| && !SharesId(steps, i)
      ensures !Orphan(steps, i)
    {
      var other := if i == 0 then 1 else 0;
      assert steps[other].stepId != steps[i].stepId;
      var p :| Path(steps, p, steps[i].stepId, steps[other].stepId);
      assert Adjacent(steps, p[0], p[1]);
    }
  }

  /** With a repeated id it is not: the orphan check rejects a connected, fully named workflow. */
  lemma {:induction false} RepeatedIdOrphan() returns (steps: seq<Step>)
    ensures |steps| == 3 && AllNamed(steps) && Connected(steps) && !NoOrphans(steps)
  {
    steps := [Step("a", []), Step("a", ["b"]), Step("b", [])];
    assert Orphan(steps, 0);
    assert steps[1].stepId == "a" && steps[2].stepId == "b" && DependsOn(steps, "a", "b");
    assert Adjacent(steps, "a", "b");
    LinkReflexive(steps, "a");
    LinkExtends(steps, "a", "a", "b");
    FirstReachesAll(steps);
  }
}
