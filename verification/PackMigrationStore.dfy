/** What interleaved migrations leave in the shared store: every pack, shared target or not, holds what
    the last seed, transfer or reverted transfer on it left there, and what a transfer leaves is what
    the source held when its plan was executed. */
module PackMigrationStore {
  import opened Basics
  import opened PackMigration

  /** The event is the accepted call that executes plan `id`. */
  predicate Executes(s: Service, e: Event, id: string) {
    e.Execute? && e.id == id && id in s.book.plans && s.book.plans[id].status in {Planned, Validated}
  }

  /** The state of the source at the moment its plan was executed, read off the history. */
  function Exported(events: seq<Event>, id: string): Option<PackState> {
    if events == [] then None
    else
      var s, e := Run(EMPTY, events[..|events| - 1]), events[|events| - 1];
      if Executes(s, e, id) then Some(Snapshot(s.store.packs, s.book.plans[id].fromPack, e.clock))
      else Exported(events[..|events| - 1], id)
  }

  /** The event carries out the transfer of the plan with this view. */
  predicate Transfers(v: PlanView, e: Event) {
    e.Resume? && v.suspended == Some(AfterStep(2))
  }

  /** The event reverts the transfer of the plan with this view. */
  predicate Reverts(v: PlanView, e: Event) {
    || (e.Resume? && v.suspended.Some? && v.suspended.value.Reverting?
        && v.suspended.value.rest != [] && v.suspended.value.rest[0] == Transfer)
    || (e.Rollback? && v.plan.status in {Completed, Failed} && v.executed != [] && Reverse(v.executed)[0] == Transfer)
  }

  /** What the history says a pack holds. */
  function Content(events: seq<Event>, pack: string): Option<PackState> {
    if events == [] then None
    else
      var init, e := events[..|events| - 1], events[|events| - 1];
      var b := Run(EMPTY, init).book;
      if e.Seed? then if e.pack == pack then Some(e.state) else Content(init, pack)
      else if e.Create? || e.id !in b.plans || b.plans[e.id].toPack != pack then Content(init, pack)
      else if Transfers(View(b, e.id), e) && Exported(init, e.id).Some?
      then Some(Migrated(Exported(init, e.id).value, b.plans[e.id].fromPack, e.id))
      else if Reverts(View(b, e.id), e) then None
      else Content(init, pack)
  }

  // ----- a snapshot is what was exported ------------------------------------

  predicate AwaitsStep(v: PlanView) {
    v.suspended.Some? && v.suspended.value.AfterStep?
  }

  function SnapshotOf(st: Store, id: string): Option<PackState> {
    if id in st.snapshots then Some(st.snapshots[id]) else None
  }

  lemma {:induction false} StepSnapshot(st: Store, v: PlanView, e: Event, id: string, fails: bool)
    requires InOrder(v) && !e.Create? && !e.Seed?
    requires AwaitsStep(v) ==> id in st.snapshots
    ensures e.id != id ==> SnapshotOf(StepStore(st, v, e), id) == SnapshotOf(st, id)
    ensures e.id == id && AwaitsStep(StepView(v, e, fails)) ==> id in StepStore(st, v, e).snapshots
    ensures e.id == id && e.Execute? && v.plan.status in {Planned, Validated} ==>
              SnapshotOf(StepStore(st, v, e), id) == Some(Snapshot(st.packs, v.plan.fromPack, e.clock))
    ensures e.id == id && !(e.Execute? && v.plan.status in {Planned, Validated}) ==>
              SnapshotOf(StepStore(st, v, e), id) in {SnapshotOf(st, id), None}
  {
    hide Snapshot, Migrated, Reverse, Records, Locked;
  }

  /** A plan between two of its steps has a snapshot, and every snapshot is what was exported. */
  ghost predicate Snapshots(s: Service, id: string, exported: Option<PackState>) {
    && (id in s.book.plans && AwaitsStep(View(s.book, id)) ==> id in s.store.snapshots)
    && (id in s.store.snapshots ==> exported == Some(s.store.snapshots[id]))
  }

  lemma {:induction false} OwnEvent(s: Service, e: Event, id: string, exported: Option<PackState>)
    requires AllInOrder(s.book) && Concerns(s.book, e, id) && Snapshots(s, id, exported)
    ensures Snapshots(Step(s, e), id,
              if Executes(s, e, id) then Some(Snapshot(s.store.packs, s.book.plans[id].fromPack, e.clock)) else exported)
  {
    hide Step, InOrder, StepView, StepStore, StepFails, NextNode, Held, Snapshot;
    var v := View(s.book, id);
    var fails := !e.Execute? && StepFails(s.store, v.plan, NextNode(v));
    StepSplits(s, e, id);
    StepSnapshot(s.store, v, e, id, fails);
  }

  lemma {:induction false} OtherEvent(s: Service, e: Event, id: string, exported: Option<PackState>)
    requires AllInOrder(s.book) && !Concerns(s.book, e, id) && Snapshots(s, id, exported)
    ensures Snapshots(Step(s, e), id, exported)
  {
    if e.Seed? || e.Create? {
      hide InOrder;
      NewPlanHasNoCall(s, e, id);
    } else if e.id in s.book.plans {
      hide Step, InOrder, StepView, StepStore, StepFails, NextNode, Held;
      var v := View(s.book, e.id);
      StepSplits(s, e, e.id);
      OtherSnapshot(s.store, v, e, id);
    } else {
      NoSuchPlan(s, e);
    }
  }

  lemma {:induction false} OtherSnapshot(st: Store, v: PlanView, e: Event, id: string)
    requires !e.Create? && !e.Seed? && e.id != id
    ensures SnapshotOf(StepStore(st, v, e), id) == SnapshotOf(st, id)
  {
    hide Snapshot, Migrated, Reverse, StepFails;
  }

  lemma {:induction false} NewPlanHasNoCall(s: Service, e: Event, id: string)
    requires AllInOrder(s.book) && (e.Seed? || e.Create?)
    ensures Step(s, e).store.snapshots == s.store.snapshots
    ensures id in Step(s, e).book.plans && AwaitsStep(View(Step(s, e).book, id)) ==>
              id in s.book.plans && AwaitsStep(View(s.book, id))
  {
    hide InOrder;
  }

  lemma {:induction false} SnapshotIsExport(events: seq<Event>, id: string)
    ensures Snapshots(Run(EMPTY, events), id, Exported(events, id))
  {
    hide Step, Snapshots, AllInOrder, Snapshot;
    if events == [] {
      NothingStored(id);
    } else {
      var init, e := events[..|events| - 1], events[|events| - 1];
      var s := Run(EMPTY, init);
      SnapshotIsExport(init, id);
      RunInOrder(init);
      if Concerns(s.book, e, id) {
        OwnEvent(s, e, id, Exported(init, id));
      } else {
        OtherEvent(s, e, id, Exported(init, id));
      }
    }
  }

  lemma {:induction false} NothingStored(id: string)
    ensures Snapshots(EMPTY, id, None)
  {
  }

  // ----- what a pack holds --------------------------------------------------

  /** What one event on a plan leaves in a pack. */
  lemma {:induction false} StepContent(st: Store, v: PlanView, e: Event, pack: string)
    requires InOrder(v) && !e.Create? && !e.Seed?
    requires AwaitsStep(v) ==> e.id in st.snapshots
    ensures StateOf(StepStore(st, v, e), pack) ==
            if v.plan.toPack != pack then StateOf(st, pack)
            else if Transfers(v, e) then Some(Migrated(st.snapshots[e.id], v.plan.fromPack, e.id))
            else if Reverts(v, e) then None
            else StateOf(st, pack)
  {
    hide Snapshot, Migrated, Reverse, Records, Locked, History;
  }

  /** Under any interleaving every pack holds what the last seed, transfer or reverted transfer on it
      left; a transfer leaves what its source held when the plan was executed, with the provenance,
      whatever other plans did to either pack in between. */
  lemma {:induction false} PacksHoldTheirContent(events: seq<Event>, pack: string)
    ensures StateOf(Run(EMPTY, events).store, pack) == Content(events, pack)
  {
    hide Step, InOrder, StepView, StepStore, StepFails, NextNode, Held, Snapshot, Migrated, Exported, Transfers, Reverts;
    if events == [] {
    } else {
      var init, e := events[..|events| - 1], events[|events| - 1];
      var s := Run(EMPTY, init);
      PacksHoldTheirContent(init, pack);
      if e.Seed? || e.Create? {
        SeedContent(s, e, pack);
      } else if e.id in s.book.plans {
        var v := View(s.book, e.id);
        RunInOrder(init);
        SnapshotIsExport(init, e.id);
        StepSplits(s, e, e.id);
        TransferAwaits(v, e);
        StepContent(s.store, v, e, pack);
      } else {
        NoSuchPlan(s, e);
      }
    }
  }

  lemma {:induction false} TransferAwaits(v: PlanView, e: Event)
    ensures Transfers(v, e) ==> AwaitsStep(v) && e.Resume?
  {
  }

  lemma {:induction false} SeedContent(s: Service, e: Event, pack: string)
    requires e.Seed? || e.Create?
    ensures StateOf(Step(s, e).store, pack) == if e.Seed? && e.pack == pack then Some(e.state) else StateOf(s.store, pack)
  {
  }

  // ----- what a transfer carries over ---------------------------------------

  lemma {:induction false} StepKeepsPacks(s: Service, e: Event, id: string)
    requires id in s.book.plans
    ensures id in Step(s, e).book.plans
    ensures Step(s, e).book.plans[id].fromPack == s.book.plans[id].fromPack && Step(s, e).book.plans[id].toPack == s.book.plans[id].toPack
  {
    if Concerns(s.book, e, id) {
      hide Step, StepView, StepStore, StepFails, NextNode, Held;
      var v := View(s.book, id);
      var fails := !e.Execute? && StepFails(s.store, v.plan, NextNode(v));
      StepSplits(s, e, id);
      StepViewKeepsTarget(v, e, fails);
      assert View(Step(s, e).book, id).plan == Step(s, e).book.plans[id];
    } else {
      hide Step;
      OthersLeaveAlone(s, e, id);
      assert View(Step(s, e).book, id).plan == View(s.book, id).plan;
    }
  }

  /** Call `k` of the run executes plan `id`, which migrates from `fromPack`. */
  ghost predicate ExecutedAt(events: seq<Event>, k: nat, id: string, fromPack: string)
    requires k < |events|
  {
    var s := Run(EMPTY, events[..k]);
    Executes(s, events[k], id) && s.book.plans[id].fromPack == fromPack
  }

  lemma {:induction false} ExportedAt(events: seq<Event>, id: string) returns (k: nat)
    requires Exported(events, id).Some?
    ensures k < |events| && id in Run(EMPTY, events).book.plans && events[k].Execute?
    ensures ExecutedAt(events, k, id, Run(EMPTY, events).book.plans[id].fromPack)
    ensures Exported(events, id).value ==
            Snapshot(Run(EMPTY, events[..k]).store.packs, Run(EMPTY, events).book.plans[id].fromPack, events[k].clock)
  {
    hide Step, Snapshot;
    var init, e := events[..|events| - 1], events[|events| - 1];
    if Executes(Run(EMPTY, init), e, id) {
      k := |init|;
    } else {
      k := ExportedAt(init, id);
      assert init[..k] == events[..k];
    }
    StepKeepsPacks(Run(EMPTY, init), e, id);
  }

  /** Under any interleaving: when a plan's transfer is carried out, the target holds, field by field,
      what the source held when the plan was executed - however the source or the target changed since -
      with the source and the plan noted over it, and nothing else. */
  lemma {:induction false} TransferCarriesTheSource(events: seq<Event>, e: Event) returns (k: nat)
    requires !e.Create? && !e.Seed? && e.id in Run(EMPTY, events).book.plans && Transfers(View(Run(EMPTY, events).book, e.id), e)
    ensures var s, s' := Run(EMPTY, events), Run(EMPTY, events + [e]);
            var p := s.book.plans[e.id];
            && k < |events| && events[k].Execute? && ExecutedAt(events, k, e.id, p.fromPack)
            && p.toPack in s'.store.packs
            && HoldsTransfer(s'.store.packs[p.toPack], StateOf(Run(EMPTY, events[..k]).store, p.fromPack), p.fromPack, e.id, events[k].clock)
  {
    hide Step, Snapshot, Migrated, HoldsTransfer, InOrder, StepView, StepStore, StepFails, NextNode, Held, Exported, ExecutedAt;
    var s := Run(EMPTY, events);
    var v := View(s.book, e.id);
    assert (events + [e])[..|events|] == events;
    RunInOrder(events);
    SnapshotIsExport(events, e.id);
    TransferAwaits(v, e);
    StepSplits(s, e, e.id);
    StepContent(s.store, v, e, v.plan.toPack);
    k := ExportedAt(events, e.id);
    TransferHolds(Run(EMPTY, events[..k]).store.packs, v.plan.fromPack, e.id, events[k].clock);
  }
}
