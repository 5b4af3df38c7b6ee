/** The registry of business domains: registration with its structural checks, and the lifecycle
    transitions, two of which are gated by the smoke test. */
module DomainRegistry {
  import opened DomainModel
  import opened SmokeTest
  import opened Digraph

  type Domains = map<string, Definition>

  datatype Op =
    | Register(definition: Definition, pluginsAccepted: bool)
    | Canary(id: string, skipSmokeTest: bool)
    | Activate(id: string)
    | BeginUpdate(id: string)
    | CompleteUpdate(id: string)
    | Deprecate(id: string)
    | Archive(id: string, hasLivePacks: bool)

  // ----- structural checks at registration ----------------------------------

  predicate HasDotDot(s: string) {
    exists i :: 0 <= i < |s| - 1 && s[i] == '.' && s[i + 1] == '.'
  }

  /** Two dots in a row, wherever they stand. */
  lemma {:induction false} DotDotMeans(s: string)
    ensures HasDotDot(s) <==> exists a, b :: s == a + ".." + b
  {
    if i :| 0 <= i < |s| - 1 && s[i] == '.' && s[i + 1] == '.' {
      assert s == s[..i] + ".." + s[i + 2..];
    }
    forall a: string, b: string | s == a + ".." + b
      ensures HasDotDot(s)
    {
      assert s[|a|] == '.' && s[|a| + 1] == '.';
    }
  }

  predicate UniqueIds(workflows: seq<Workflow>) {
    forall i, j :: 0 <= i < j < |workflows| ==> workflows[i].workflowId != workflows[j].workflowId
  }

  predicate ClosedWorkflow(w: Workflow) {
    && DistinctStepNames(w.steps)
    && forall i, dep :: 0 <= i < |w.steps| && dep in w.steps[i].dependsOn ==> IsStepOf(w, dep)
  }

  predicate PlainTools(b: ToolBundle) {
    forall t :: t in b.tools ==> !HasDotDot(t) && '/' !in t
  }

  predicate WellFormed(d: Definition) {
    && UniqueIds(d.workflows)
    && (forall i :: 0 <= i < |d.workflows| ==> ClosedWorkflow(d.workflows[i]))
    && (forall i :: 0 <= i < |d.toolBundles| ==> PlainTools(d.toolBundles[i]))
  }

  method ValidateWorkflow(w: Workflow) returns (ok: bool)
    ensures ok <==> ClosedWorkflow(w)
  {
    var stepNames: set<string> := {};
    for i := 0 to |w.steps|
      invariant stepNames == set k | 0 <= k < i :: w.steps[k].stepName
      invariant DistinctStepNames(w.steps[..i])
    {
      if w.steps[i].stepName in stepNames {
        return false;
      }
      stepNames := stepNames + {w.steps[i].stepName};
    }
    assert w.steps[..|w.steps|] == w.steps;
    for i := 0 to |w.steps|
      invariant forall k, dep :: 0 <= k < i && dep in w.steps[k].dependsOn ==> IsStepOf(w, dep)
    {
      var dependencies := w.steps[i].dependsOn;
      for j := 0 to |dependencies|
        invariant forall k :: 0 <= k < j ==> IsStepOf(w, dependencies[k])
      {
        if dependencies[j] !in stepNames {
          assert !IsStepOf(w, dependencies[j]) && dependencies[j] in w.steps[i].dependsOn;
          return false;
        }
      }
    }
    return true;
  }

  method ValidateDefinition(d: Definition) returns (ok: bool)
    ensures ok <==> WellFormed(d)
  {
    var seen: set<string> := {};
    for i := 0 to |d.workflows|
      invariant seen == set k | 0 <= k < i :: d.workflows[k].workflowId
      invariant UniqueIds(d.workflows[..i])
      invariant forall k :: 0 <= k < i ==> ClosedWorkflow(d.workflows[k])
    {
      hide ClosedWorkflow;
      if d.workflows[i].workflowId in seen {
        return false;
      }
      seen := seen + {d.workflows[i].workflowId};
      var closed := ValidateWorkflow(d.workflows[i]);
      if !closed {
        return false;
      }
    }
    assert d.workflows[..|d.workflows|] == d.workflows;
    for i := 0 to |d.toolBundles|
      invariant forall k :: 0 <= k < i ==> PlainTools(d.toolBundles[k])
    {
      if exists t :: t in d.toolBundles[i].tools && (HasDotDot(t) || '/' in t) {
        return false;
      }
    }
    return true;
  }

  // ----- meaning of the operations ------------------------------------------

  /** Definitions that arrive as draft or validated are stored as registered. */
  function Normalized(d: Definition): Definition {
    if d.status in {Draft, Validated} then d.(status := Registered) else d
  }

  predicate Is(domains: Domains, id: string, status: Status) {
    id in domains && domains[id].status == status
  }

  /** Whether the operation goes through; otherwise it throws and changes nothing. */
  ghost predicate Accepts(domains: Domains, op: Op) {
    match op
    case Register(d, pluginsAccepted) => d.domainId !in domains && WellFormed(d) && pluginsAccepted
    case Canary(id, skip) => Is(domains, id, Registered) && (skip || SmokePasses(domains[id]))
    case Activate(id) => (Is(domains, id, DomainModel.Canary) || Is(domains, id, Registered)) && SmokePasses(domains[id])
    case BeginUpdate(id) => Is(domains, id, Active)
    case CompleteUpdate(id) => Is(domains, id, Updating) && SmokePasses(domains[id])
    case Deprecate(id) => Is(domains, id, Active)
    case Archive(id, hasLivePacks) => Is(domains, id, Deprecated) && !hasLivePacks
  }

  function Target(op: Op): Status
    requires !op.Register?
  {
    match op
    case Canary(_, _) => DomainModel.Canary
    case Activate(_) => Active
    case BeginUpdate(_) => Updating
    case CompleteUpdate(_) => Active
    case Deprecate(_) => Deprecated
    case Archive(_, _) => Archived
  }

  function Apply(domains: Domains, op: Op): Domains {
    if op.Register? then domains[op.definition.domainId := Normalized(op.definition)]
    else if op.id in domains then domains[op.id := domains[op.id].(status := Target(op))]
    else domains
  }

  ghost function Step(domains: Domains, op: Op): Domains {
    if Accepts(domains, op) then Apply(domains, op) else domains
  }

  // ----- what every run keeps -----------------------------------------------

  predicate Live(status: Status) {
    status in {Active, Updating, Deprecated, Archived}
  }

  /** The registry together with the definitions its domains were registered with. */
  datatype Past = Past(domains: Domains, registered: Domains)

  ghost function StepPast(p: Past, op: Op): Past {
    if !Accepts(p.domains, op) then p
    else
      Past(Apply(p.domains, op),
           if op.Register? then p.registered[op.definition.domainId := op.definition] else p.registered)
  }

  /** The domain is past the gate although it does not pass the smoke test. */
  ghost predicate SlippedThrough(d: Definition) {
    Live(d.status) && !SmokePasses(d)
  }

  /** A domain as stored, against the definition it was registered with: under its own id, no draft,
      unchanged but for its status, live if registered live, and past the gate without passing it
      exactly when it already was in the call that registered it. */
  ghost predicate Keeps(id: string, d: Definition, registered: Definition) {
    && d.domainId == id && d.status !in {Draft, Validated}
    && d == registered.(status := d.status)
    && (Live(registered.status) ==> Live(d.status))
    && (SlippedThrough(d) <==> SlippedThrough(registered))
  }

  ghost predicate Gated(p: Past) {
    && p.registered.Keys == p.domains.Keys
    && (forall id :: id in p.domains ==> Keeps(id, p.domains[id], p.registered[id]))
  }

  lemma {:induction false} SmokeIgnoresStatus(d: Definition, status: Status)
    ensures SmokePasses(d.(status := status)) == SmokePasses(d)
  {
  }

  lemma {:induction false} MoveKeeps(domains: Domains, op: Op, registered: Definition)
    requires !op.Register? && Accepts(domains, op) && Keeps(op.id, domains[op.id], registered)
    ensures Keeps(op.id, domains[op.id].(status := Target(op)), registered)
  {
    hide SmokePasses;
    SmokeIgnoresStatus(domains[op.id], Target(op));
  }

  lemma {:induction false} RegistrationKeeps(d: Definition)
    ensures Keeps(d.domainId, Normalized(d), d)
  {
    hide SmokePasses;
    SmokeIgnoresStatus(d, Registered);
  }

  lemma {:induction false} StepKeepsGate(p: Past, op: Op)
    requires Gated(p)
    ensures Gated(StepPast(p, op))
    ensures StepPast(p, op).domains == Step(p.domains, op)
  {
    hide SmokePasses, WellFormed, Keeps;
    if Accepts(p.domains, op) {
      if op.Register? {
        RegistrationKeeps(op.definition);
      } else {
        MoveKeeps(p.domains, op, p.registered[op.id]);
      }
    }
  }

  ghost function Run(ops: seq<Op>): Past {
    if ops == [] then Past(map[], map[]) else StepPast(Run(ops[..|ops| - 1]), ops[|ops| - 1])
  }

  /** In every run of the registry. */
  lemma {:induction false} RunGated(ops: seq<Op>)
    ensures Gated(Run(ops))
  {
    if ops == [] {
    } else {
      hide StepPast, Gated;
      RunGated(ops[..|ops| - 1]);
      StepKeepsGate(Run(ops[..|ops| - 1]), ops[|ops| - 1]);
    }
  }

  /** Call `k` of the run registers `id` in a live status with a definition that fails the smoke test. */
  ghost predicate RegistersFailing(ops: seq<Op>, k: nat, id: string)
    requires k < |ops|
  {
    && ops[k].Register? && ops[k].definition.domainId == id && Accepts(Run(ops[..k]).domains, ops[k])
    && SlippedThrough(ops[k].definition)
  }

  lemma {:induction false} PrefixRegisters(ops: seq<Op>, k: nat, id: string)
    requires k + 1 < |ops|
    ensures RegistersFailing(ops[..|ops| - 1], k, id) <==> RegistersFailing(ops, k, id)
  {
    assert ops[..|ops| - 1][..k] == ops[..k];
  }

  /** One call: a domain is past the gate without passing it afterwards exactly when it was before, or
      this call registers it so. */
  lemma {:induction false} SlipsStep(domains: Domains, op: Op, id: string)
    ensures id in Step(domains, op) && SlippedThrough(Step(domains, op)[id]) <==>
            || (id in domains && SlippedThrough(domains[id]))
            || (op.Register? && op.definition.domainId == id && Accepts(domains, op) && SlippedThrough(op.definition))
  {
    hide SmokePasses, WellFormed;
    if Accepts(domains, op) {
      if op.Register? {
        SmokeIgnoresStatus(op.definition, Registered);
      } else {
        SmokeIgnoresStatus(domains[op.id], Target(op));
      }
    }
  }

  /** In every run a domain is past the gate without passing it exactly when some call registered it so. */
  lemma {:induction false} SlipsThroughExactlyWhen(ops: seq<Op>, id: string)
    ensures id in Run(ops).domains && SlippedThrough(Run(ops).domains[id]) <==>
            exists k: nat :: k < |ops| && RegistersFailing(ops, k, id)
  {
    hide SlippedThrough, Accepts;
    if ops == [] {
    } else {
      var init, n := ops[..|ops| - 1], |ops| - 1;
      SlipsThroughExactlyWhen(init, id);
      SlipsStep(Run(init).domains, ops[n], id);
      assert RegistersFailing(ops, n, id) <==>
             ops[n].Register? && ops[n].definition.domainId == id && Accepts(Run(init).domains, ops[n]) && SlippedThrough(ops[n].definition);
      assert Run(ops).domains == Step(Run(init).domains, ops[n]);
      hide RegistersFailing, Run;
      forall k: nat | k < n
        ensures RegistersFailing(init, k, id) <==> RegistersFailing(ops, k, id)
      {
        PrefixRegisters(ops, k, id);
      }
    }
  }

  /** A lifecycle transition changes the status of one domain and nothing else. */
  lemma {:induction false} OnlyStatusMoves(domains: Domains, op: Op, id: string)
    requires id in domains
    ensures id in Step(domains, op)
    ensures Step(domains, op)[id].(status := domains[id].status) == domains[id]
    ensures Step(domains, op)[id].status != domains[id].status ==> !op.Register? && op.id == id
  {
    hide SmokePasses, WellFormed;
  }

  /** It happens: a domain with no workflow at all can be registered as active. */
  lemma {:induction false} RegisteredLiveUnchecked(d: Definition)
    requires d.workflows == [] && d.toolBundles == [] && d.status == Active
    ensures Is(Step(map[], Register(d, true)), d.domainId, Active)
    ensures SlippedThrough(Step(map[], Register(d, true))[d.domainId])
  {
  }

  // ----- the lifecycle as a table -------------------------------------------

  /** Where the call takes a domain in status `before` that passes the smoke test or not. */
  function Lifecycle(op: Op, before: Status, smoke: bool): Status
    requires !op.Register?
  {
    match (op, before)
    case (Canary(_, skip), Registered) => if skip || smoke then Status.Canary else Registered
    case (Activate(_), Registered) => if smoke then Active else Registered
    case (Activate(_), Canary) => if smoke then Active else Status.Canary
    case (BeginUpdate(_), Active) => Updating
    case (CompleteUpdate(_), Updating) => if smoke then Active else Updating
    case (Deprecate(_), Active) => Deprecated
    case (Archive(_, hasLivePacks), Deprecated) => if hasLivePacks then Deprecated else Archived
    case (_, _) => before
  }

  /** Every call moves the domain it names along the table and no other domain; a registration adds one
      domain under a new id, drafts and validated ones as registered, others in the status given. */
  lemma {:induction false} MovesAlongTable(domains: Domains, op: Op, id: string)
    ensures id in domains ==>
              id in Step(domains, op)
              && Step(domains, op)[id] == (if !op.Register? && op.id == id
                                           then domains[id].(status := Lifecycle(op, domains[id].status, SmokePasses(domains[id])))
                                           else domains[id])
    ensures id !in domains && id in Step(domains, op) ==>
              op.Register? && op.definition.domainId == id
              && Step(domains, op)[id] == (if op.definition.status in {Draft, Validated}
                                           then op.definition.(status := Registered) else op.definition)
  {
    hide SmokePasses, WellFormed;
  }

  /** Over every run: an archived domain stays archived, and a deprecated one is archived or stays. */
  lemma {:induction false} EndOfLife(domains: Domains, ops: seq<Op>, id: string)
    requires id in domains && domains[id].status in {Deprecated, Archived}
    ensures id in StepAll(domains, ops)
    ensures StepAll(domains, ops)[id].status == Archived
            || (domains[id].status == Deprecated && StepAll(domains, ops)[id].status == Deprecated)
  {
    hide Step, SmokePasses;
    if ops == [] {
    } else {
      EndOfLife(domains, ops[..|ops| - 1], id);
      MovesAlongTable(StepAll(domains, ops[..|ops| - 1]), ops[|ops| - 1], id);
    }
  }

  ghost function StepAll(domains: Domains, ops: seq<Op>): Domains {
    if ops == [] then domains else Step(StepAll(domains, ops[..|ops| - 1]), ops[|ops| - 1])
  }

  // ----- what the gate's cycle check says about each workflow ---------------

  lemma {:induction false} GraphNames(w: Workflow, name: string)
    ensures name in StepGraph(w.steps) <==> IsStepOf(w, name)
    decreases |w.steps|
  {
    if w.steps == [] {
    } else {
      var init := Workflow(w.workflowId, w.steps[..|w.steps| - 1]);
      GraphNames(init, name);
      if i :| 0 <= i < |w.steps| && w.steps[i].stepName == name && i < |init.steps| {
        assert init.steps[i].stepName == name;
      }
    }
  }

  /** A step of a registered workflow has the same dependencies in the graph of all workflows, and
      they are steps of its own workflow. */
  lemma {:induction false} SameDependencies(workflows: seq<Workflow>, w: nat, name: string)
    requires DistinctStepNames(AllSteps(workflows)) && w < |workflows| && ClosedWorkflow(workflows[w])
    requires IsStepOf(workflows[w], name)
    ensures Succ(StepGraph(workflows[w].steps), name) == Succ(StepGraph(AllSteps(workflows)), name)
    ensures forall dep :: dep in Succ(StepGraph(workflows[w].steps), name) ==> IsStepOf(workflows[w], dep)
  {
    hide StepGraph, AllSteps;
    var k :| 0 <= k < |workflows[w].steps| && workflows[w].steps[k].stepName == name;
    StepLookup(workflows[w].steps, k);
    var at := WorkflowStep(workflows, w, k);
    StepLookup(AllSteps(workflows), at);
  }

  lemma {:induction false} StepsWorkflow(workflows: seq<Workflow>, name: string) returns (w: nat)
    requires name in StepGraph(AllSteps(workflows))
    ensures w < |workflows| && IsStepOf(workflows[w], name)
  {
    GraphNames(Workflow("", AllSteps(workflows)), name);
    var at :| 0 <= at < |AllSteps(workflows)| && AllSteps(workflows)[at].stepName == name;
    w := WorkflowAt(workflows, at);
  }

  lemma {:induction false} WorkflowAt(workflows: seq<Workflow>, at: nat) returns (w: nat)
    requires at < |AllSteps(workflows)|
    ensures w < |workflows| && IsStepOf(workflows[w], AllSteps(workflows)[at].stepName)
  {
    var init := workflows[..|workflows| - 1];
    if at < |AllSteps(init)| {
      w := WorkflowAt(init, at);
    } else {
      w := |workflows| - 1;
      assert workflows[w].steps[at - |AllSteps(init)|] == AllSteps(workflows)[at];
    }
  }

  /** A cycle that starts in a closed workflow stays in it, and is a cycle of its own graph. */
  lemma {:induction false} CycleStaysInside(workflows: seq<Workflow>, w: nat, p: seq<string>, n: nat)
    requires DistinctStepNames(AllSteps(workflows)) && w < |workflows| && ClosedWorkflow(workflows[w])
    requires IsCycle(StepGraph(AllSteps(workflows)), p) && IsStepOf(workflows[w], p[0]) && 1 <= n <= |p|
    ensures forall i :: 0 <= i < n ==> IsStepOf(workflows[w], p[i])
    ensures Walk(StepGraph(workflows[w].steps), p[..n])
  {
    hide StepGraph, AllSteps, ClosedWorkflow, DistinctStepNames, IsStepOf;
    if n == 1 {
    } else {
      CycleStaysInside(workflows, w, p, n - 1);
      SameDependencies(workflows, w, p[n - 2]);
      assert p[n - 1] in Succ(StepGraph(AllSteps(workflows)), p[n - 2]);
      assert p[..n] == p[..n - 1] + [p[n - 1]];
      WalkExtends(StepGraph(workflows[w].steps), p[..n - 1], p[n - 1]);
    }
  }

  /** A cycle of one workflow is a cycle of the whole graph. */
  lemma {:induction false} CycleShows(workflows: seq<Workflow>, w: nat, p: seq<string>)
    requires DistinctStepNames(AllSteps(workflows)) && w < |workflows| && ClosedWorkflow(workflows[w])
    requires IsCycle(StepGraph(workflows[w].steps), p)
    ensures IsCycle(StepGraph(AllSteps(workflows)), p)
  {
    hide StepGraph, AllSteps, ClosedWorkflow, DistinctStepNames, IsStepOf;
    forall i | 0 <= i < |p| - 1
      ensures p[i + 1] in Succ(StepGraph(AllSteps(workflows)), p[i])
    {
      assert p[i + 1] in Succ(StepGraph(workflows[w].steps), p[i]);
      GraphNames(workflows[w], p[i]);
      SameDependencies(workflows, w, p[i]);
    }
  }

  /** For workflows that registration accepts and whose step names are distinct throughout, the gate
      finds a circular dependency exactly when some single workflow has one. */
  lemma {:induction false} CircularExactlyWhen(workflows: seq<Workflow>)
    requires DistinctStepNames(AllSteps(workflows))
    requires forall w :: 0 <= w < |workflows| ==> ClosedWorkflow(workflows[w])
    ensures HasCircularDependency(workflows) <==>
            exists w :: 0 <= w < |workflows| && Cyclic(StepGraph(workflows[w].steps))
  {
    hide StepGraph, AllSteps, ClosedWorkflow, DistinctStepNames, IsStepOf;
    var g := StepGraph(AllSteps(workflows));
    if HasCircularDependency(workflows) {
      var p :| IsCycle(g, p);
      assert p[1] in Succ(g, p[0]);
      var w := StepsWorkflow(workflows, p[0]);
      CycleStaysInside(workflows, w, p, |p|);
      assert p[..|p|] == p;
      assert IsCycle(StepGraph(workflows[w].steps), p);
    }
    forall w | 0 <= w < |workflows| && Cyclic(StepGraph(workflows[w].steps))
      ensures HasCircularDependency(workflows)
    {
      var p :| IsCycle(StepGraph(workflows[w].steps), p);
      CycleShows(workflows, w, p);
    }
  }

  /** Conversely to the order a passing graph gives every workflow: if every workflow can be ordered
      with dependencies first, the gate passes. */
  lemma {:induction false} OrderedWorkflowsPass(workflows: seq<Workflow>)
    requires DistinctStepNames(AllSteps(workflows))
    requires forall w :: 0 <= w < |workflows| ==> ClosedWorkflow(workflows[w])
    requires forall w :: 0 <= w < |workflows| ==> exists order :: OrdersWorkflow(workflows[w], order)
    ensures !HasCircularDependency(workflows)
  {
    hide AllSteps;
    CircularExactlyWhen(workflows);
    forall w | 0 <= w < |workflows|
      ensures !Cyclic(StepGraph(workflows[w].steps))
    {
      var order :| OrdersWorkflow(workflows[w], order);
      OrderIsTopological(workflows[w], order);
      TopologicalMeansAcyclic(StepGraph(workflows[w].steps), order);
    }
  }

  lemma {:induction false} OrderIsTopological(w: Workflow, order: seq<string>)
    requires ClosedWorkflow(w) && OrdersWorkflow(w, order)
    ensures Topological(StepGraph(w.steps), order) && Covers(StepGraph(w.steps), order)
  {
    hide StepGraph;
    var g := StepGraph(w.steps);
    forall node | node in g
      ensures node in order
    {
      GraphNames(w, node);
    }
    forall i, next | 0 <= i < |order| && next in Succ(g, order[i]) && next in g
      ensures next in order[..i]
    {
      GraphNames(w, order[i]);
      GraphNames(w, next);
      var k :| 0 <= k < |w.steps| && w.steps[k].stepName == order[i];
      StepLookup(w.steps, k);
    }
  }

  // ----- the registry object ------------------------------------------------

  class DomainRegistryService {
    var registry: Domains

    constructor ()
      ensures registry == map[]
    {
      registry := map[];
    }

    method RegisterDomain(definition: Definition, pluginsAccepted: bool) returns (ok: bool)
      modifies this
      ensures registry == Step(old(registry), Register(definition, pluginsAccepted))
      ensures ok <==> Accepts(old(registry), Register(definition, pluginsAccepted))
    {
      hide WellFormed;
      var normalized := if definition.status == Draft || definition.status == Validated
                        then definition.(status := Registered) else definition;
      if normalized.domainId in registry {
        return false;
      }
      var valid := ValidateDefinition(normalized);
      StatusIsNotStructure(definition, Registered);
      if !valid || !pluginsAccepted {
        return false;
      }
      registry := registry[normalized.domainId := normalized];
      return true;
    }

    method PromoteToCanary(id: string, skipSmokeTest: bool) returns (ok: bool)
      modifies this
      ensures registry == Step(old(registry), Op.Canary(id, skipSmokeTest))
      ensures ok <==> Accepts(old(registry), Op.Canary(id, skipSmokeTest))
    {
      hide SmokePasses;
      if id !in registry || registry[id].status != Registered {
        return false;
      }
      if !skipSmokeTest {
        var issues := RunSmokeTest(registry[id]);
        if issues != [] {
          return false;
        }
      }
      registry := registry[id := registry[id].(status := DomainModel.Canary)];
      return true;
    }

    method ActivateDomain(id: string) returns (ok: bool)
      modifies this
      ensures registry == Step(old(registry), Activate(id))
      ensures ok <==> Accepts(old(registry), Activate(id))
    {
      hide SmokePasses;
      if id !in registry || (registry[id].status != DomainModel.Canary && registry[id].status != Registered) {
        return false;
      }
      var issues := RunSmokeTest(registry[id]);
      if issues != [] {
        return false;
      }
      registry := registry[id := registry[id].(status := Active)];
      return true;
    }

    method CompleteDomainUpdate(id: string) returns (ok: bool)
      modifies this
      ensures registry == Step(old(registry), CompleteUpdate(id))
      ensures ok <==> Accepts(old(registry), CompleteUpdate(id))
    {
      hide SmokePasses;
      if id !in registry || registry[id].status != Updating {
        return false;
      }
      var issues := RunSmokeTest(registry[id]);
      if issues != [] {
        return false;
      }
      registry := registry[id := registry[id].(status := Active)];
      return true;
    }

    method BeginDomainUpdate(id: string) returns (ok: bool)
      modifies this
      ensures registry == Step(old(registry), BeginUpdate(id))
      ensures ok <==> Accepts(old(registry), BeginUpdate(id))
    {
      hide SmokePasses;
      if id !in registry || registry[id].status != Active {
        return false;
      }
      registry := registry[id := registry[id].(status := Updating)];
      return true;
    }

    method DeprecateDomain(id: string) returns (ok: bool)
      modifies this
      ensures registry == Step(old(registry), Deprecate(id))
      ensures ok <==> Accepts(old(registry), Deprecate(id))
    {
      hide SmokePasses;
      if id !in registry || registry[id].status != Active {
        return false;
      }
      registry := registry[id := registry[id].(status := Deprecated)];
      return true;
    }

    method ArchiveDomain(id: string, hasLivePacks: bool) returns (ok: bool)
      modifies this
      ensures registry == Step(old(registry), Archive(id, hasLivePacks))
      ensures ok <==> Accepts(old(registry), Archive(id, hasLivePacks))
    {
      hide SmokePasses;
      if id !in registry || registry[id].status != Deprecated || hasLivePacks {
        return false;
      }
      registry := registry[id := registry[id].(status := Archived)];
      return true;
    }
  }

  lemma {:induction false} StatusIsNotStructure(d: Definition, status: Status)
    ensures WellFormed(d.(status := status)) == WellFormed(d)
  {
  }
}
