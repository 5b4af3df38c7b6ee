/** The migration service as the object it is: six maps updated in place. The two asynchronous calls
    are cut where they await, so that each method is one uninterrupted stretch of execution. */
module PackMigrationObject {
  import opened PackMigration

  class PackMigrationService {
    var plans: map<string, Plan>
    var executedSteps: map<string, seq<Node>>
    var rollbackHistory: set<string>
    var packStates: map<string, PackState>
    var exportedSnapshots: map<string, PackState>
    var executionTrace: map<string, seq<Record>>
    var suspended: map<string, Suspension>  // the asynchronous calls in flight, one per plan at most

    function View(): Service
      reads this
    {
      Service(Book(plans, executedSteps, executionTrace, rollbackHistory, suspended), Store(packStates, exportedSnapshots))
    }

    constructor ()
      ensures View() == EMPTY
    {
      plans, executedSteps, rollbackHistory := map[], map[], {};
      packStates, exportedSnapshots, executionTrace, suspended := map[], map[], map[], map[];
    }

    /** `id` is the generated plan id, distinct from those in use. */
    method CreateMigrationPlan(id: string, fromPack: string, toPack: string) returns (created: bool)
      requires id !in plans
      modifies this
      ensures View() == Step(old(View()), Create(id, fromPack, toPack))
      ensures created <==> fromPack != toPack
    {
      if fromPack == toPack {
        return false;
      }
      plans := plans[id := Plan(fromPack, toPack, Planned)];
      return true;
    }

    method ValidateMigration(id: string) returns (valid: bool)
      modifies this
      ensures View() == Step(old(View()), Validate(id))
      ensures valid ==> id in plans && plans[id].status == Validated
    {
      if id !in plans {
        return false;
      }
      var plan := plans[id];
      valid := (plan.status == Planned || plan.status == Validated)
               && plan.fromPack != [] && plan.toPack != [] && plan.fromPack != plan.toPack;
      if valid {
        plans := plans[id := plan.(status := Validated)];
      }
    }

    method ExecuteMigration(id: string, clock: string) returns (accepted: bool)
      modifies this
      ensures View() == Step(old(View()), Execute(id, clock))
      ensures accepted <==> id in old(plans) && old(plans[id].status) in {Planned, Validated}
    {
      hide RunStep;
      if id !in plans || (plans[id].status != Planned && plans[id].status != Validated) {
        return false;
      }
      plans := plans[id := plans[id].(status := Executing)];
      ExecuteStep(id, 0, clock);
      return true;
    }

    /** Notes the step, applies it and records it; a step that throws is noticed at the next turn. */
    method ExecuteStep(id: string, k: nat, clock: string)
      requires id in plans && k < |SAGA|
      modifies this
      ensures View() == RunStep(old(View()), id, k, clock)
    {
      hide Snapshot, Migrated, Locked;
      var node, plan := SAGA[k], plans[id];
      executedSteps := executedSteps[id := Get(executedSteps, id) + [node]];
      match node {
        case ExportState =>
          exportedSnapshots := exportedSnapshots[id := Snapshot(packStates, plan.fromPack, clock)];
        case ValidateTarget =>
          if Locked(packStates, plan.toPack) {
            suspended := suspended[id := AfterFailure];
            return;
          }
        case Transfer =>
          var snapshot := if id in exportedSnapshots then exportedSnapshots[id]
                          else PackState(map["sourcePackId" := Label(plan.fromPack)]);
          packStates := packStates[plan.toPack := Migrated(snapshot, plan.fromPack, id)];
        case Verify =>
          if plan.toPack !in packStates {
            suspended := suspended[id := AfterFailure];
            return;
          }
      }
      executionTrace := executionTrace[id := Get(executionTrace, id) + [Executed(node)]];
      suspended := suspended[id := AfterStep(k + 1)];
    }

    method RollbackMigration(id: string) returns (accepted: bool)
      modifies this
      ensures View() == Step(old(View()), Rollback(id))
      ensures accepted <==> id in old(plans) && old(plans[id].status) in {Completed, Failed}
    {
      hide UndoStep, Reverse;
      if id !in plans || (plans[id].status != Completed && plans[id].status != Failed) {
        return false;
      }
      plans := plans[id := plans[id].(status := RollingBack)];
      RollbackStep(id, Reverse(Get(executedSteps, id)));
      return true;
    }

    method RollbackStep(id: string, nodes: seq<Node>)
      requires id in plans
      modifies this
      ensures View() == UndoStep(old(View()), id, nodes)
    {
      if nodes == [] {
        plans := plans[id := plans[id].(status := RolledBack)];
        rollbackHistory := rollbackHistory + {id};
        suspended := suspended - {id};
        return;
      }
      match nodes[0] {
        case Transfer => packStates := packStates - {plans[id].toPack};
        case ExportState => exportedSnapshots := exportedSnapshots - {id};
        case _ =>
      }
      executionTrace := executionTrace[id := Get(executionTrace, id) + [Reverted(nodes[0])]];
      suspended := suspended[id := Reverting(nodes[1..])];
    }

    /** The next turn of a suspended call. */
    method ResumeCall(id: string, clock: string)
      modifies this
      ensures View() == Step(old(View()), Resume(id, clock))
    {
      hide RunStep, UndoStep;
      if id !in suspended || id !in plans {
        return;
      }
      match suspended[id] {
        case AfterStep(done) =>
          if done < |SAGA| {
            ExecuteStep(id, done, clock);
          } else {
            plans := plans[id := plans[id].(status := Completed)];
            suspended := suspended - {id};
          }
        case AfterFailure =>
          plans := plans[id := plans[id].(status := Failed)];
          suspended := suspended - {id};
        case Reverting(rest) =>
          RollbackStep(id, rest);
      }
    }

    method SeedPackState(pack: string, state: PackState)
      modifies this
      ensures View() == Step(old(View()), Seed(pack, state))
    {
      packStates := packStates[pack := state];
    }
  }
}
