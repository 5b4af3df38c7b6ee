/** Pack migration: sagas of four steps that any number of plans run over one shared store, each
    plan suspended between two steps so that others may run. */
module PackMigration {
  import opened Basics
  import opened Text

  // ----- steps and their names ----------------------------------------------

  datatype Node = ExportState | ValidateTarget | Transfer | Verify

  const SAGA := [ExportState, ValidateTarget, Transfer, Verify]

  function Suffix(node: Node): string {
    match node
    case ExportState => "_export_state"
    case ValidateTarget => "_validate_target"
    case Transfer => "_transfer"
    case Verify => "_verify"
  }

  function NodeId(node: Node, fromPack: string, toPack: string): string {
    match node
    case ExportState => fromPack + Suffix(ExportState)
    case ValidateTarget => toPack + Suffix(ValidateTarget)
    case Transfer => fromPack + "_to_" + toPack + Suffix(Transfer)
    case Verify => toPack + Suffix(Verify)
  }

  predicate EndsWith(s: string, suffix: string) {
    |suffix| <= |s| && s[|s| - |suffix|..] == suffix
  }

  /** Which step a node id stands for, by the suffix tests in the order `applyStep` makes them. */
  function ApplyDispatch(nodeId: string): Option<Node> {
    if EndsWith(nodeId, Suffix(ExportState)) then Some(ExportState)
    else if EndsWith(nodeId, Suffix(ValidateTarget)) then Some(ValidateTarget)
    else if EndsWith(nodeId, Suffix(Transfer)) then Some(Transfer)
    else if EndsWith(nodeId, Suffix(Verify)) then Some(Verify)
    else None
  }

  /** The same in the order `revertStep` makes them. */
  function RevertDispatch(nodeId: string): Option<Node> {
    if EndsWith(nodeId, Suffix(Verify)) then Some(Verify)
    else if EndsWith(nodeId, Suffix(Transfer)) then Some(Transfer)
    else if EndsWith(nodeId, Suffix(ValidateTarget)) then Some(ValidateTarget)
    else if EndsWith(nodeId, Suffix(ExportState)) then Some(ExportState)
    else None
  }

  /** Whatever the packs are called, and although node ids are trimmed, both dispatches find the step
      the id was made for. */
  lemma {:induction false} DispatchIsExact(node: Node, fromPack: string, toPack: string)
    ensures ApplyDispatch(Trim(NodeId(node, fromPack, toPack))) == Some(node)
    ensures RevertDispatch(Trim(NodeId(node, fromPack, toPack))) == Some(node)
  {
    hide Trim, EndsWith;
    var prefix := match node
      case ExportState => fromPack
      case Transfer => fromPack + "_to_" + toPack
      case _ => toPack;
    TrimKeepsSuffix(prefix, Suffix(node));
    assert NodeId(node, fromPack, toPack) == prefix + Suffix(node);
    OnlyItsOwnSuffix(Trim(prefix + Suffix(node)), node);
  }

  lemma {:induction false} OnlyItsOwnSuffix(s: string, node: Node)
    requires EndsWith(s, Suffix(node))
    ensures forall other :: EndsWith(s, Suffix(other)) <==> other == node
  {
    forall other | EndsWith(s, Suffix(other))
      ensures other == node
    {
      assert s[|s| - 1] == s[|s| - |Suffix(node)|..][|Suffix(node)| - 1] == Suffix(node)[|Suffix(node)| - 1];
      assert s[|s| - 1] == s[|s| - |Suffix(other)|..][|Suffix(other)| - 1] == Suffix(other)[|Suffix(other)| - 1];
    }
  }

  lemma {:induction false} TrimKeepsSuffix(s: string, suffix: string)
    requires suffix != [] && IsTrimmed(suffix)
    ensures EndsWith(Trim(s + suffix), suffix)
  {
    var t := s + suffix;
    if s != [] && IsSpace(s[0]) {
      assert t[1..] == s[1..] + suffix;
      TrimKeepsSuffix(s[1..], suffix);
    } else {
      assert TrimStart(t) == t;
      assert t[|t| - 1] == suffix[|suffix| - 1];
      assert t[|t| - |suffix|..] == suffix;
    }
  }

  // ----- state --------------------------------------------------------------

  datatype FieldValue = Flag(on: bool) | Label(text: string) | Opaque(token: int)

  datatype PackState = PackState(fields: map<string, FieldValue>)

  datatype Status = Planned | Validated | Executing | Completed | Failed | RollingBack | RolledBack

  datatype Plan = Plan(fromPack: string, toPack: string, status: Status)

  datatype Record = Executed(node: Node) | Reverted(node: Node)

  /** Where an asynchronous call on a plan is suspended: after `done` steps, with a step's failure
      about to be noticed, or with steps still to revert. */
  datatype Suspension = AfterStep(done: nat) | AfterFailure | Reverting(rest: seq<Node>)

  /** The states of the packs and the snapshots exported from them, shared by all plans. */
  datatype Store = Store(packs: map<string, PackState>, snapshots: map<string, PackState>)

  /** The plans and what is noted about each. */
  datatype Book = Book(
    plans: map<string, Plan>, executed: map<string, seq<Node>>, trace: map<string, seq<Record>>,
    rolledBack: set<string>, suspended: map<string, Suspension>)

  datatype Service = Service(book: Book, store: Store)

  const EMPTY := Service(Book(map[], map[], map[], {}, map[]), Store(map[], map[]))

  datatype Event =
    | Create(id: string, fromPack: string, toPack: string)
    | Validate(id: string)
    | Execute(id: string, clock: string)
    | Rollback(id: string)
    | Resume(id: string, clock: string)
    | Seed(pack: string, state: PackState)

  function Get<T>(m: map<string, seq<T>>, id: string): seq<T> {
    if id in m then m[id] else []
  }

  // ----- steps on the store -------------------------------------------------

  predicate Locked(packs: map<string, PackState>, pack: string) {
    pack in packs && "migrationLocked" in packs[pack].fields && packs[pack].fields["migrationLocked"] == Flag(true)
  }

  function Snapshot(packs: map<string, PackState>, pack: string, clock: string): PackState {
    if pack in packs then packs[pack] else PackState(map["packId" := Label(pack), "exportedAt" := Label(clock)])
  }

  function Migrated(snapshot: PackState, fromPack: string, id: string): PackState {
    PackState(snapshot.fields["migratedFromPackId" := Label(fromPack)]["migratedByPlanId" := Label(id)])
  }

  /** `target` holds, field by field, what a transfer leaves: the fields of the source - of an absent one
      its id and the time of the export - with the source and the plan noted over them, and no other. */
  ghost predicate HoldsTransfer(target: PackState, source: Option<PackState>, fromPack: string, id: string, clock: string) {
    && (forall f :: f in target.fields <==>
          || f in {"migratedFromPackId", "migratedByPlanId"}
          || (source.Some? && f in source.value.fields)
          || (source.None? && f in {"packId", "exportedAt"}))
    && (forall f :: f in target.fields ==>
          target.fields[f] ==
            (if f == "migratedByPlanId" then Label(id)
             else if f == "migratedFromPackId" then Label(fromPack)
             else if source.Some? && f in source.value.fields then source.value.fields[f]
             else if f == "packId" then Label(fromPack) else Label(clock)))
  }

  lemma {:induction false} TransferHolds(packs: map<string, PackState>, fromPack: string, id: string, clock: string)
    ensures HoldsTransfer(Migrated(Snapshot(packs, fromPack, clock), fromPack, id), StateIn(packs, fromPack), fromPack, id, clock)
  {
  }

  function StateIn(packs: map<string, PackState>, pack: string): Option<PackState> {
    if pack in packs then Some(packs[pack]) else None
  }

  predicate StepFails(st: Store, p: Plan, node: Node) {
    match node
    case ValidateTarget => Locked(st.packs, p.toPack)
    case Verify => p.toPack !in st.packs
    case _ => false
  }

  function ApplyStep(st: Store, id: string, p: Plan, node: Node, clock: string): Store {
    match node
    case ExportState => st.(snapshots := st.snapshots[id := Snapshot(st.packs, p.fromPack, clock)])
    case Transfer =>
      var snapshot := if id in st.snapshots then st.snapshots[id] else PackState(map["sourcePackId" := Label(p.fromPack)]);
      st.(packs := st.packs[p.toPack := Migrated(snapshot, p.fromPack, id)])
    case _ => st
  }

  function RevertStep(st: Store, id: string, p: Plan, node: Node): Store {
    match node
    case Transfer => st.(packs := st.packs - {p.toPack})
    case ExportState => st.(snapshots := st.snapshots - {id})
    case _ => st
  }

  // ----- steps in the book --------------------------------------------------

  function SetStatus(b: Book, id: string, status: Status): Book
    requires id in b.plans
  {
    b.(plans := b.plans[id := b.plans[id].(status := status)])
  }

  /** The step is noted before it is tried; if it fails, nothing is traced. */
  function NoteStep(b: Book, id: string, k: nat, fails: bool): Book
    requires k < |SAGA|
  {
    b.(executed := b.executed[id := Get(b.executed, id) + [SAGA[k]]],
       trace := if fails then b.trace else b.trace[id := Get(b.trace, id) + [Executed(SAGA[k])]],
       suspended := b.suspended[id := if fails then AfterFailure else AfterStep(k + 1)])
  }

  function NoteRevert(b: Book, id: string, nodes: seq<Node>): Book
    requires id in b.plans
  {
    if nodes == [] then SetStatus(b, id, RolledBack).(rolledBack := b.rolledBack + {id}, suspended := b.suspended - {id})
    else b.(trace := b.trace[id := Get(b.trace, id) + [Reverted(nodes[0])]],
            suspended := b.suspended[id := Reverting(nodes[1..])])
  }

  // ----- stretches of execution ---------------------------------------------

  function RunStep(s: Service, id: string, k: nat, clock: string): Service
    requires id in s.book.plans && k < |SAGA|
  {
    var p := s.book.plans[id];
    var fails := StepFails(s.store, p, SAGA[k]);
    Service(NoteStep(s.book, id, k, fails), if fails then s.store else ApplyStep(s.store, id, p, SAGA[k], clock))
  }

  function UndoStep(s: Service, id: string, nodes: seq<Node>): Service
    requires id in s.book.plans
  {
    Service(NoteRevert(s.book, id, nodes),
            if nodes == [] then s.store else RevertStep(s.store, id, s.book.plans[id], nodes[0]))
  }

  function Reverse(nodes: seq<Node>): (r: seq<Node>)
    ensures |r| == |nodes|
    ensures forall i :: 0 <= i < |nodes| ==> r[i] == nodes[|nodes| - 1 - i]
  {
    if nodes == [] then [] else Reverse(nodes[1..]) + [nodes[0]]
  }

  function ResumePlan(s: Service, id: string, clock: string): Service {
    var b := s.book;
    if id !in b.suspended || id !in b.plans then s
    else
      match b.suspended[id]
      case AfterStep(done) =>
        if done < |SAGA| then RunStep(s, id, done, clock)
        else s.(book := SetStatus(b, id, Completed).(suspended := b.suspended - {id}))
      case AfterFailure => s.(book := SetStatus(b, id, Failed).(suspended := b.suspended - {id}))
      case Reverting(rest) => UndoStep(s, id, rest)
  }

  function Step(s: Service, e: Event): Service {
    var b := s.book;
    match e
    case Create(id, fromPack, toPack) =>
      if fromPack == toPack || id in b.plans then s
      else s.(book := b.(plans := b.plans[id := Plan(fromPack, toPack, Planned)]))
    case Validate(id) =>
      if id in b.plans && Validatable(b.plans[id]) then s.(book := SetStatus(b, id, Validated)) else s
    case Execute(id, clock) =>
      if id in b.plans && b.plans[id].status in {Planned, Validated}
      then RunStep(s.(book := SetStatus(b, id, Executing)), id, 0, clock) else s
    case Rollback(id) =>
      if id in b.plans && b.plans[id].status in {Completed, Failed}
      then UndoStep(s.(book := SetStatus(b, id, RollingBack)), id, Reverse(Get(b.executed, id))) else s
    case Resume(id, clock) => ResumePlan(s, id, clock)
    case Seed(pack, state) => s.(store := s.store.(packs := s.store.packs[pack := state]))
  }

  predicate Validatable(p: Plan) {
    p.status in {Planned, Validated} && p.fromPack != [] && p.toPack != [] && p.fromPack != p.toPack
  }

  function Run(s: Service, events: seq<Event>): Service {
    if events == [] then s else Step(Run(s, events[..|events| - 1]), events[|events| - 1])
  }

  // ----- one plan's part of the book ----------------------------------------

  datatype PlanView = PlanView(
    plan: Plan, executed: seq<Node>, trace: seq<Record>, rolledBack: bool, suspended: Option<Suspension>)

  function View(b: Book, id: string): PlanView
    requires id in b.plans
  {
    PlanView(b.plans[id], Get(b.executed, id), Get(b.trace, id), id in b.rolledBack,
             if id in b.suspended then Some(b.suspended[id]) else None)
  }

  function TryView(v: PlanView, k: nat, fails: bool): PlanView
    requires k < |SAGA|
  {
    v.(executed := v.executed + [SAGA[k]],
       trace := if fails then v.trace else v.trace + [Executed(SAGA[k])],
       suspended := Some(if fails then AfterFailure else AfterStep(k + 1)))
  }

  function RevertView(v: PlanView, rest: seq<Node>): PlanView {
    if rest == [] then v.(plan := v.plan.(status := RolledBack), rolledBack := true, suspended := None)
    else v.(trace := v.trace + [Reverted(rest[0])], suspended := Some(Reverting(rest[1..])))
  }

  /** The step a plan is about to try, if any. */
  function NextNode(v: PlanView): Node {
    match v.suspended
    case Some(AfterStep(done)) => if done < |SAGA| then SAGA[done] else ExportState
    case _ => ExportState
  }

  /** What one event does to the view of the plan it concerns. */
  function StepView(v: PlanView, e: Event, fails: bool): PlanView {
    var status := v.plan.status;
    match e
    case Validate(_) => if Validatable(v.plan) then v.(plan := v.plan.(status := Validated)) else v
    case Execute(_, _) =>
      if status in {Planned, Validated} then TryView(v.(plan := v.plan.(status := Executing)), 0, fails) else v
    case Rollback(_) =>
      if status in {Completed, Failed} then RevertView(v.(plan := v.plan.(status := RollingBack)), Reverse(v.executed)) else v
    case Resume(_, _) =>
      (match v.suspended
       case Some(AfterStep(done)) =>
         if done < |SAGA| then TryView(v, done, fails)
         else v.(plan := v.plan.(status := Completed), suspended := None)
       case Some(AfterFailure) => v.(plan := v.plan.(status := Failed), suspended := None)
       case Some(Reverting(rest)) => RevertView(v, rest)
       case None => v)
    case _ => v
  }

  /** What one event on a plan does to the store. */
  function StepStore(st: Store, v: PlanView, e: Event): Store {
    match e
    case Execute(id, clock) =>
      if v.plan.status in {Planned, Validated} then ApplyStep(st, id, v.plan, ExportState, clock) else st
    case Rollback(id) =>
      if v.plan.status in {Completed, Failed} && v.executed != [] then RevertStep(st, id, v.plan, Reverse(v.executed)[0]) else st
    case Resume(id, clock) =>
      (match v.suspended
       case Some(AfterStep(done)) =>
         if done < |SAGA| && !StepFails(st, v.plan, SAGA[done]) then ApplyStep(st, id, v.plan, SAGA[done], clock) else st
       case Some(Reverting(rest)) => if rest == [] then st else RevertStep(st, id, v.plan, rest[0])
       case _ => st)
    case _ => st
  }

  /** The keys of everything noted about plans. */
  function Held(b: Book): set<string> {
    b.suspended.Keys + b.rolledBack + b.executed.Keys + b.trace.Keys
  }

  /** In going from `b` to `b'` only plan `id` was touched, and its view is now `after`. */
  ghost predicate Touches(b: Book, b': Book, id: string, after: PlanView)
    requires id in b.plans
  {
    && b'.plans.Keys == b.plans.Keys && Held(b') <= Held(b) + {id}
    && forall other :: other in b.plans ==> View(b', other) == if other == id then after else View(b, other)
  }

  lemma {:induction false} NoteStepTouches(b: Book, id: string, k: nat, fails: bool)
    requires id in b.plans && k < |SAGA|
    ensures Touches(b, NoteStep(b, id, k, fails), id, TryView(View(b, id), k, fails))
  {
  }

  lemma {:induction false} SetStatusTouches(b: Book, id: string, status: Status)
    requires id in b.plans
    ensures Touches(b, SetStatus(b, id, status), id, View(b, id).(plan := b.plans[id].(status := status)))
  {
  }

  lemma {:induction false} SettleTouches(b: Book, id: string, status: Status)
    requires id in b.plans
    ensures Touches(b, SetStatus(b, id, status).(suspended := b.suspended - {id}), id,
                    View(b, id).(plan := b.plans[id].(status := status), suspended := None))
  {
  }

  lemma {:induction false} NoteRevertTouches(b: Book, id: string, nodes: seq<Node>)
    requires id in b.plans
    ensures Touches(b, NoteRevert(b, id, nodes), id, RevertView(View(b, id), nodes))
  {
    if nodes == [] {
      assert Touches(b, NoteRevert(b, id, []), id, RevertView(View(b, id), []));
    }
  }

  lemma {:induction false} TouchesTwice(b: Book, b1: Book, b2: Book, id: string, v1: PlanView, v2: PlanView)
    requires id in b.plans && Touches(b, b1, id, v1) && Touches(b1, b2, id, v2)
    ensures Touches(b, b2, id, v2)
  {
    hide View;
  }

  lemma {:induction false} TouchesNothing(b: Book, id: string)
    requires id in b.plans
    ensures Touches(b, b, id, View(b, id))
  {
  }

  /** The event concerns plan `id`, which exists. */
  predicate Concerns(b: Book, e: Event, id: string) {
    !e.Seed? && !e.Create? && e.id == id && id in b.plans
  }

  /** An event on a plan touches that plan alone, as `StepView` and `StepStore` say. */
  lemma {:induction false} StepSplits(s: Service, e: Event, id: string)
    requires Concerns(s.book, e, id)
    ensures var v, s' := View(s.book, id), Step(s, e);
            && s'.store == StepStore(s.store, v, e)
            && Touches(s.book, s'.book, id, StepView(v, e, !e.Execute? && StepFails(s.store, v.plan, NextNode(v))))
  {
    hide Touches, NoteStep, NoteRevert, TryView, RevertView, Reverse, Locked, Snapshot, Migrated;
    var b, v := s.book, View(s.book, id);
    TouchesNothing(b, id);
    match e
    case Validate(_) => SetStatusTouches(b, id, Validated);
    case Execute(_, clock) =>
      if v.plan.status in {Planned, Validated} {
        var b1 := SetStatus(b, id, Executing);
        SetStatusTouches(b, id, Executing);
        NoteStepTouches(b1, id, 0, false);
        TouchesTwice(b, b1, NoteStep(b1, id, 0, false), id, View(b1, id), TryView(View(b1, id), 0, false));
      }
    case Rollback(_) =>
      if v.plan.status in {Completed, Failed} {
        var b1, nodes := SetStatus(b, id, RollingBack), Reverse(v.executed);
        SetStatusTouches(b, id, RollingBack);
        NoteRevertTouches(b1, id, nodes);
        TouchesTwice(b, b1, NoteRevert(b1, id, nodes), id, View(b1, id), RevertView(View(b1, id), nodes));
      }
    case Resume(_, clock) =>
      match v.suspended {
        case Some(AfterStep(done)) =>
          if done < |SAGA| {
            NoteStepTouches(b, id, done, StepFails(s.store, v.plan, SAGA[done]));
          } else {
            SettleTouches(b, id, Completed);
          }
        case Some(AfterFailure) => SettleTouches(b, id, Failed);
        case Some(Reverting(rest)) => NoteRevertTouches(b, id, rest);
        case None =>
      }
  }

  // ----- what every interleaving keeps --------------------------------------

  function Records(executed: seq<Node>, reverted: seq<Node>): seq<Record> {
    seq(|executed|, i requires 0 <= i < |executed| => Executed(executed[i]))
    + seq(|reverted|, i requires 0 <= i < |reverted| => Reverted(reverted[i]))
  }

  /** Of `k` steps tried `done` succeeded: all of them, or all but the last, which then is one of the
      two that can fail. */
  predicate Tried(k: int, done: int) {
    1 <= k <= |SAGA| && (done == k || (done == k - 1 && SAGA[k - 1] in {ValidateTarget, Verify}))
  }

  /** The plan has tried the first `k` steps, completed the first `done` and then reverted the last
      `undone` of those tried, in reverse order. */
  predicate History(v: PlanView, k: int, done: int, undone: int) {
    && 0 <= done <= k <= |SAGA| && 0 <= undone <= k
    && v.executed == SAGA[..k]
    && v.trace == Records(SAGA[..done], Reverse(SAGA[..k])[..undone])
  }

  predicate InOrder(v: PlanView) {
    var k, length := |v.executed|, |v.trace|;
    && v.plan.fromPack != v.plan.toPack
    && (v.rolledBack <==> v.plan.status == RolledBack)
    && match v.plan.status
       case Executing =>
         (match v.suspended
          case Some(AfterStep(done)) => 1 <= k == done && History(v, k, k, 0)
          case Some(AfterFailure) => Tried(k, k - 1) && History(v, k, k - 1, 0)
          case _ => false)
       case RollingBack =>
         && v.suspended.Some? && v.suspended.value.Reverting?
         && var undone := k - |v.suspended.value.rest|;
            && Tried(k, length - undone) && History(v, k, length - undone, undone)
            && v.suspended.value.rest == Reverse(SAGA[..k])[undone..]
       case Planned => v.suspended == None && History(v, 0, 0, 0)
       case Validated => v.suspended == None && History(v, 0, 0, 0)
       case Completed => v.suspended == None && History(v, |SAGA|, |SAGA|, 0)
       case Failed => v.suspended == None && Tried(k, k - 1) && History(v, k, k - 1, 0)
       case RolledBack => v.suspended == None && Tried(k, length - k) && History(v, k, length - k, k)
  }

  /** Every plan is in order, and nothing is noted about a plan that does not exist. */
  ghost predicate AllInOrder(b: Book) {
    (forall id :: id in b.plans ==> InOrder(View(b, id))) && Held(b) <= b.plans.Keys
  }

  lemma {:induction false} RecordsGrow(executed: seq<Node>, reverted: seq<Node>, node: Node)
    ensures Records(executed, []) + [Executed(node)] == Records(executed + [node], [])
    ensures Records(executed, reverted) + [Reverted(node)] == Records(executed, reverted + [node])
    ensures |Records(executed, reverted)| == |executed| + |reverted|
  {
  }

  /** Trying the next step of a plan that has completed exactly the steps before it. */
  lemma {:induction false} TryingKeepsOrder(v: PlanView, k: nat, fails: bool)
    requires k < |SAGA| && v.plan.fromPack != v.plan.toPack
    requires v.plan.status == Executing && !v.rolledBack && History(v, k, k, 0)
    requires fails ==> SAGA[k] in {ValidateTarget, Verify}
    ensures InOrder(TryView(v, k, fails))
  {
    hide Records, Reverse;
    RecordsGrow(SAGA[..k], [], SAGA[k]);
    assert SAGA[..k] + [SAGA[k]] == SAGA[..k + 1];
    assert Reverse(SAGA[..k])[..0] == [] && Reverse(SAGA[..k + 1])[..0] == [];
  }

  /** Reverting the next step of a plan, or finishing when none is left. */
  lemma {:induction false} RevertingKeepsOrder(v: PlanView, k: nat, done: nat, undone: nat)
    requires v.plan.fromPack != v.plan.toPack && v.plan.status == RollingBack && !v.rolledBack
    requires Tried(k, done) && History(v, k, done, undone)
    ensures InOrder(RevertView(v, Reverse(SAGA[..k])[undone..]))
  {
    hide Records, Reverse;
    var reversed := Reverse(SAGA[..k]);
    RecordsGrow(SAGA[..done], reversed[..undone], SAGA[0]);
    if undone < k {
      RecordsGrow(SAGA[..done], reversed[..undone], reversed[undone]);
      assert reversed[..undone] + [reversed[undone]] == reversed[..undone + 1];
      assert reversed[undone..][1..] == reversed[undone + 1..];
    }
  }

  lemma {:induction false} StepViewKeepsOrder(v: PlanView, e: Event, fails: bool)
    requires InOrder(v)
    requires fails ==> NextNode(v) in {ValidateTarget, Verify}
    ensures InOrder(StepView(v, e, fails))
  {
    hide Records, Reverse;
    match e
    case Execute(_, _) =>
      if v.plan.status in {Planned, Validated} {
        assert v.suspended == None;
        TryingKeepsOrder(v.(plan := v.plan.(status := Executing)), 0, fails);
      }
    case Rollback(_) =>
      if v.plan.status in {Completed, Failed} {
        var k := |v.executed|;
        RecordsGrow(v.executed, [], SAGA[0]);
        assert Reverse(SAGA[..k])[0..] == Reverse(SAGA[..k]);
        assert v.executed == SAGA[..k];
        RevertingKeepsOrder(v.(plan := v.plan.(status := RollingBack)), k, if v.plan.status == Completed then k else k - 1, 0);
      }
    case Resume(_, _) =>
      match v.suspended {
        case Some(AfterStep(done)) =>
          if done < |SAGA| {
            TryingKeepsOrder(v, done, fails);
          } else {
            assert SAGA[..done] == SAGA;
          }
        case Some(Reverting(rest)) =>
          var k := |v.executed|;
          var undone := k - |rest|;
          RevertingKeepsOrder(v, k, |v.trace| - undone, undone);
        case _ =>
      }
    case _ =>
  }

  lemma {:induction false} FailingNodes(st: Store, p: Plan, node: Node)
    requires StepFails(st, p, node)
    ensures node in {ValidateTarget, Verify}
  {
  }

  lemma {:induction false} TouchKeepsOrder(b: Book, b': Book, id: string, after: PlanView)
    requires AllInOrder(b) && id in b.plans && Touches(b, b', id, after) && InOrder(after)
    ensures AllInOrder(b')
  {
    hide InOrder, View, Held;
  }

  lemma {:induction false} NoSuchPlan(s: Service, e: Event)
    requires !e.Create? && !e.Seed? && e.id !in s.book.plans
    ensures Step(s, e) == s
  {
  }

  lemma {:induction false} StepKeepsOrder(s: Service, e: Event)
    requires AllInOrder(s.book)
    ensures AllInOrder(Step(s, e).book)
  {
    hide Step, StepView, StepFails, NextNode, InOrder, Held, View, Touches;
    if e.Create? || e.Seed? {
      OtherEventsKeepOrder(s, e);
    } else if e.id in s.book.plans {
      var v := View(s.book, e.id);
      var fails := !e.Execute? && StepFails(s.store, v.plan, NextNode(v));
      StepSplits(s, e, e.id);
      if fails {
        FailingNodes(s.store, v.plan, NextNode(v));
      }
      StepViewKeepsOrder(v, e, fails);
      TouchKeepsOrder(s.book, Step(s, e).book, e.id, StepView(v, e, fails));
    } else {
      NoSuchPlan(s, e);
    }
  }

  lemma {:induction false} OtherEventsKeepOrder(s: Service, e: Event)
    requires AllInOrder(s.book) && (e.Create? || e.Seed?)
    ensures AllInOrder(Step(s, e).book)
  {
    var b := s.book;
    if e.Create? && e.fromPack != e.toPack && e.id !in b.plans {
      NewPlanInOrder(b, e.id, e.fromPack, e.toPack);
    }
  }

  lemma {:induction false} FreshView(p: Plan)
    requires p.status == Planned && p.fromPack != p.toPack
    ensures InOrder(PlanView(p, [], [], false, None))
  {
    assert Records([], []) == [];
  }

  function WithPlan(b: Book, id: string, p: Plan): Book {
    b.(plans := b.plans[id := p])
  }

  lemma {:induction false} NewPlanView(b: Book, id: string, p: Plan, other: string)
    requires id !in b.plans && id !in Held(b) && other in WithPlan(b, id, p).plans
    ensures View(WithPlan(b, id, p), other) ==
            if other == id then PlanView(p, [], [], false, None) else View(b, other)
  {
  }

  lemma {:induction false} NewPlanInOrder(b: Book, id: string, fromPack: string, toPack: string)
    requires AllInOrder(b) && id !in b.plans && fromPack != toPack
    ensures AllInOrder(b.(plans := b.plans[id := Plan(fromPack, toPack, Planned)]))
  {
    hide InOrder, View;
    var p := Plan(fromPack, toPack, Planned);
    var b' := WithPlan(b, id, p);
    FreshView(p);
    assert id !in Held(b);
    forall other | other in b'.plans
      ensures InOrder(View(b', other))
    {
      NewPlanView(b, id, p, other);
    }
  }

  /** Under any interleaving every plan's tried steps are a prefix of the saga, its execute trace that
      prefix or that prefix less a failing last step, and its rollback trace a prefix of the reverse. */
  lemma {:induction false} RunInOrder(events: seq<Event>)
    ensures AllInOrder(Run(EMPTY, events).book)
  {
    hide Step, InOrder;
    if events == [] {
    } else {
      RunInOrder(events[..|events| - 1]);
      StepKeepsOrder(Run(EMPTY, events[..|events| - 1]), events[|events| - 1]);
    }
  }

  /** Events that name another plan, or none, leave a plan's view as it is. */
  lemma {:induction false} OthersLeaveAlone(s: Service, e: Event, id: string)
    requires id in s.book.plans && !Concerns(s.book, e, id)
    ensures id in Step(s, e).book.plans && View(Step(s, e).book, id) == View(s.book, id)
  {
    if !e.Seed? && !e.Create? && e.id in s.book.plans {
      hide Step, View, StepView;
      StepSplits(s, e, e.id);
    }
  }

  /** A rolled-back plan never changes again. */
  lemma {:induction false} RolledBackIsTerminal(s: Service, e: Event, id: string)
    requires id in s.book.plans && InOrder(View(s.book, id)) && s.book.plans[id].status == RolledBack
    ensures id in Step(s, e).book.plans && View(Step(s, e).book, id) == View(s.book, id)
  {
    hide Records, Reverse, History, Step, StepFails, NextNode, Held;
    if Concerns(s.book, e, id) {
      StepSplits(s, e, id);
    } else {
      OthersLeaveAlone(s, e, id);
    }
  }

  /** Once rolled back, a plan stays as it is in every continuation of every run. */
  lemma {:induction false} RolledBackForEver(s: Service, events: seq<Event>, id: string)
    requires id in s.book.plans && InOrder(View(s.book, id)) && s.book.plans[id].status == RolledBack
    ensures id in Run(s, events).book.plans && View(Run(s, events).book, id) == View(s.book, id)
  {
    hide InOrder, Step;
    if events == [] {
    } else {
      RolledBackForEver(s, events[..|events| - 1], id);
      RolledBackIsTerminal(Run(s, events[..|events| - 1]), events[|events| - 1], id);
    }
  }

  /** The next step of a plan under execution fails exactly when it is the validation and the target is
      locked, or the verification and the target has no state; a failure changes no pack. */
  lemma {:induction false} FailsExactlyWhen(s: Service, id: string, clock: string, done: nat)
    requires id in s.book.plans && View(s.book, id).suspended == Some(AfterStep(done)) && done < |SAGA|
    ensures var s', target := Step(s, Resume(id, clock)), s.book.plans[id].toPack;
            && id in s'.book.suspended
            && (s'.book.suspended[id] == AfterFailure <==>
                  || (done == 1 && target in s.store.packs && "migrationLocked" in s.store.packs[target].fields
                      && s.store.packs[target].fields["migrationLocked"] == Flag(true))
                  || (done == 3 && target !in s.store.packs))
            && (s'.book.suspended[id] != AfterFailure ==> s'.book.suspended[id] == AfterStep(done + 1))
            && (s'.book.suspended[id] == AfterFailure ==> s'.store == s.store)
  {
    hide Migrated, Snapshot;
  }

  /** A plan becomes validated exactly when it is not yet executed and both packs have names. */
  lemma {:induction false} ValidatesExactlyWhen(s: Service, id: string)
    requires id in s.book.plans && InOrder(View(s.book, id))
    ensures var s' := Step(s, Validate(id));
            && id in s'.book.plans && s'.store == s.store
            && s'.book.plans[id] == (if s.book.plans[id].status in {Planned, Validated} && s.book.plans[id].fromPack != "" && s.book.plans[id].toPack != ""
                                     then s.book.plans[id].(status := Validated) else s.book.plans[id])
  {
    hide Records, Reverse, History;
  }

  /** Rollback never fails: a plan that is rolling back goes on doing so until it is rolled back. */
  lemma {:induction false} RollbackNeverFails(s: Service, e: Event, id: string)
    requires id in s.book.plans && InOrder(View(s.book, id)) && s.book.plans[id].status == RollingBack
    ensures id in Step(s, e).book.plans && Step(s, e).book.plans[id].status in {RollingBack, RolledBack}
  {
    hide Records, Reverse, History, Step, StepFails, NextNode, Held;
    if Concerns(s.book, e, id) {
      StepSplits(s, e, id);
    } else {
      OthersLeaveAlone(s, e, id);
    }
    assert View(Step(s, e).book, id).plan == Step(s, e).book.plans[id];
  }

  // ----- packs that are nobody's target -------------------------------------

  predicate Targets(e: Event, pack: string) {
    e.Create? && e.toPack == pack
  }

  ghost predicate NotTargeted(b: Book, pack: string) {
    forall id :: id in b.plans ==> b.plans[id].toPack != pack
  }

  /** The state last seeded for a pack, read off the events. */
  function LastSeed(events: seq<Event>, pack: string): Option<PackState> {
    if events == [] then None
    else
      var last := events[|events| - 1];
      if last.Seed? && last.pack == pack then Some(last.state) else LastSeed(events[..|events| - 1], pack)
  }

  function StateOf(st: Store, pack: string): Option<PackState> {
    StateIn(st.packs, pack)
  }

  lemma {:induction false} StepStoreKeeps(st: Store, v: PlanView, e: Event, pack: string)
    requires v.plan.toPack != pack
    ensures StateOf(StepStore(st, v, e), pack) == StateOf(st, pack)
  {
    hide Migrated, Snapshot, Reverse, StepFails;
  }

  lemma {:induction false} StepViewKeepsTarget(v: PlanView, e: Event, fails: bool)
    ensures StepView(v, e, fails).plan.toPack == v.plan.toPack && StepView(v, e, fails).plan.fromPack == v.plan.fromPack
  {
    hide Reverse;
  }

  lemma {:induction false} StepKeepsUntargeted(s: Service, e: Event, pack: string)
    requires NotTargeted(s.book, pack) && !Targets(e, pack)
    ensures NotTargeted(Step(s, e).book, pack)
    ensures StateOf(Step(s, e).store, pack) == if e.Seed? && e.pack == pack then Some(e.state) else StateOf(s.store, pack)
  {
    if !e.Create? && !e.Seed? {
      if e.id in s.book.plans {
        var v := View(s.book, e.id);
        StepSplits(s, e, e.id);
        StepStoreKeeps(s.store, v, e, pack);
        StepViewKeepsTarget(v, e, !e.Execute? && StepFails(s.store, v.plan, NextNode(v)));
        hide Step, StepView, StepStore, StepFails, NextNode, Held;
        assert View(Step(s, e).book, e.id).plan == Step(s, e).book.plans[e.id];
      } else {
        NoSuchPlan(s, e);
      }
    }
  }

  /** Under any interleaving, a pack that no plan is created to migrate into holds exactly the state
      last seeded for it: being a source alters nothing, however often and however concurrently. */
  lemma {:induction false} SourcesSurvive(events: seq<Event>, pack: string)
    requires forall i :: 0 <= i < |events| ==> !Targets(events[i], pack)
    ensures NotTargeted(Run(EMPTY, events).book, pack)
    ensures StateOf(Run(EMPTY, events).store, pack) == LastSeed(events, pack)
  {
    hide Step;
    if events == [] {
    } else {
      SourcesSurvive(events[..|events| - 1], pack);
      StepKeepsUntargeted(Run(EMPTY, events[..|events| - 1]), events[|events| - 1], pack);
    }
  }

  // ----- a plan that runs alone ---------------------------------------------

  /** All that a lone plan's run depends on. */
  datatype Lone = Lone(view: PlanView, store: Store)

  function LoneStep(l: Lone, e: Event): Lone {
    Lone(StepView(l.view, e, !e.Execute? && StepFails(l.store, l.view.plan, NextNode(l.view))),
         StepStore(l.store, l.view, e))
  }

  /** A call followed by four resumptions, which is enough to bring it to its end. */
  function LoneCall(l: Lone, call: Event, resume: Event): Lone {
    var l2 := LoneStep(LoneStep(l, call), resume);
    LoneStep(LoneStep(LoneStep(l2, resume), resume), resume)
  }

  function CallAlone(s: Service, call: Event, resume: Event): Service {
    var s2 := Step(Step(s, call), resume);
    Step(Step(Step(s2, resume), resume), resume)
  }

  ghost predicate Follows(s: Service, id: string, l: Lone) {
    id in s.book.plans && Lone(View(s.book, id), s.store) == l
  }

  lemma {:induction false} StepAlone(s: Service, e: Event, id: string, l: Lone)
    requires Follows(s, id, l) && Concerns(s.book, e, id)
    ensures Follows(Step(s, e), id, LoneStep(l, e)) && Concerns(Step(s, e).book, e, id)
  {
    hide Step, StepView, StepStore, View;
    StepSplits(s, e, id);
  }

  lemma {:induction false} RunsAlone(s: Service, id: string, call: Event, clock: string)
    requires Concerns(s.book, call, id)
    ensures Follows(CallAlone(s, call, Resume(id, clock)), id,
                    LoneCall(Lone(View(s.book, id), s.store), call, Resume(id, clock)))
  {
    hide Step, LoneStep, View;
    var e, l := Resume(id, clock), Lone(View(s.book, id), s.store);
    StepAlone(s, call, id, l);
    var s1, l1 := Step(s, call), LoneStep(l, call);
    StepAlone(s1, e, id, l1);
    var s2, l2 := Step(s1, e), LoneStep(l1, e);
    StepAlone(s2, e, id, l2);
    var s3, l3 := Step(s2, e), LoneStep(l2, e);
    StepAlone(s3, e, id, l3);
    StepAlone(Step(s3, e), e, id, LoneStep(l3, e));
  }

  /** The store after executing a plan alone. */
  function StoreAfter(st: Store, p: Plan, id: string, clock: string): Store {
    var snapshot := Snapshot(st.packs, p.fromPack, clock);
    Store(if Locked(st.packs, p.toPack) then st.packs else st.packs[p.toPack := Migrated(snapshot, p.fromPack, id)],
          st.snapshots[id := snapshot])
  }

  lemma {:induction false} LoneExecutes(l: Lone, id: string, clock: string)
    requires InOrder(l.view) && l.view.plan.status in {Planned, Validated}
    ensures var p, end := l.view.plan, LoneCall(l, Execute(id, clock), Resume(id, clock));
            var locked := Locked(l.store.packs, p.toPack);
            && end.view.plan == p.(status := if locked then Failed else Completed)
            && end.view.executed == (if locked then SAGA[..2] else SAGA)
            && end.store == StoreAfter(l.store, p, id, clock)
            && end.view.suspended == None
  {
    hide Snapshot, Migrated, Locked, Records, Reverse;
    assert l.view.executed == [] && l.view.suspended == None;
    var e := Resume(id, clock);
    var l1 := LoneStep(l, Execute(id, clock));
    var l2 := LoneStep(l1, e);
    var l3 := LoneStep(l2, e);
    var l4 := LoneStep(l3, e);
    assert SAGA[..2] == [SAGA[0]] + [SAGA[1]];
  }

  lemma {:induction false} AfterExecution(st: Store, p: Plan, id: string, clock: string)
    ensures var packs, locked := StoreAfter(st, p, id, clock).packs, Locked(st.packs, p.toPack);
            && (locked <==> p.toPack in st.packs && "migrationLocked" in st.packs[p.toPack].fields
                            && st.packs[p.toPack].fields["migrationLocked"] == Flag(true))
            && (locked ==> packs == st.packs)
            && (!locked ==> p.toPack in packs && HoldsTransfer(packs[p.toPack], StateOf(st, p.fromPack), p.fromPack, id, clock))
  {
    hide Migrated, Snapshot, HoldsTransfer;
    TransferHolds(st.packs, p.fromPack, id, clock);
  }

  lemma {:induction false} SourceUntouched(st: Store, v: PlanView, id: string, clock: string)
    requires InOrder(v)
    ensures var p, packs := v.plan, StoreAfter(st, v.plan, id, clock).packs;
            && packs - {p.toPack} == st.packs - {p.toPack}
            && (p.fromPack in st.packs ==> p.fromPack in packs && packs[p.fromPack] == st.packs[p.fromPack])
  {
    hide Snapshot, Migrated, Locked, Records, Reverse, History;
  }

  /** Alone, execution fails exactly when the target is locked; the store then is as before, and
      otherwise differs only in the target, which holds the source's state and the provenance. */
  lemma {:induction false} ExecutedAlone(s: Service, id: string, clock: string)
    requires id in s.book.plans && InOrder(View(s.book, id)) && s.book.plans[id].status in {Planned, Validated}
    ensures var p, end := s.book.plans[id], CallAlone(s, Execute(id, clock), Resume(id, clock));
            var locked := Locked(s.store.packs, p.toPack);
            && id in end.book.plans
            && end.book.plans[id] == p.(status := if locked then Failed else Completed)
            && (locked <==> p.toPack in s.store.packs && "migrationLocked" in s.store.packs[p.toPack].fields
                            && s.store.packs[p.toPack].fields["migrationLocked"] == Flag(true))
            && (locked ==> end.store.packs == s.store.packs)
            && (!locked ==> p.toPack in end.store.packs
                            && HoldsTransfer(end.store.packs[p.toPack], StateOf(s.store, p.fromPack), p.fromPack, id, clock))
            && end.store == StoreAfter(s.store, p, id, clock)
            && end.store.packs - {p.toPack} == s.store.packs - {p.toPack}
            && (p.fromPack in s.store.packs ==>
                  p.fromPack in end.store.packs && end.store.packs[p.fromPack] == s.store.packs[p.fromPack])
  {
    hide CallAlone, LoneCall, InOrder, StoreAfter, Locked;
    RunsAlone(s, id, Execute(id, clock), clock);
    LoneExecutes(Lone(View(s.book, id), s.store), id, clock);
    SourceUntouched(s.store, View(s.book, id), id, clock);
    AfterExecution(s.store, s.book.plans[id], id, clock);
  }

  lemma {:induction false} LoneRollsBack(l: Lone, id: string, clock: string)
    requires l.view.plan.status in {Completed, Failed} && l.view.executed in {SAGA, SAGA[..2]}
    ensures var p, end := l.view.plan, LoneCall(l, Rollback(id), Resume(id, clock));
            && end.view.plan == p.(status := RolledBack)
            && end.store == Store(if l.view.executed == SAGA then l.store.packs - {p.toPack} else l.store.packs,
                                  l.store.snapshots - {id})
  {
    hide Reverse, LoneStep;
    var e := Resume(id, clock);
    var l1 := LoneStep(l, Rollback(id));
    LoneRollbackStarts(l, id);
    var l2 := LoneStep(l1, e);
    LoneReverts(l1, id, clock);
    var l3 := LoneStep(l2, e);
    LoneReverts(l2, id, clock);
    var l4 := LoneStep(l3, e);
    LoneReverts(l3, id, clock);
    LoneReverts(l4, id, clock);
  }

  lemma {:induction false} LoneRollbackStarts(l: Lone, id: string)
    requires l.view.plan.status in {Completed, Failed} && l.view.executed in {SAGA, SAGA[..2]}
    ensures var rest := if l.view.executed == SAGA then [Transfer, ValidateTarget, ExportState] else [ExportState];
            var l' := LoneStep(l, Rollback(id));
            l'.view.plan == l.view.plan.(status := RollingBack) && l'.view.suspended == Some(Reverting(rest)) && l'.store == l.store
  {
    var nodes := Reverse(l.view.executed);
    assert SAGA[..2] != SAGA;
    assert nodes == if l.view.executed == SAGA then [Verify, Transfer, ValidateTarget, ExportState] else [ValidateTarget, ExportState];
  }

  lemma {:induction false} LoneReverts(l: Lone, id: string, clock: string)
    requires l.view.suspended == None || (l.view.suspended.Some? && l.view.suspended.value.Reverting?)
    ensures var l' := LoneStep(l, Resume(id, clock));
            match l.view.suspended {
              case None => l' == l
              case Some(at) =>
                if at.rest == [] then l'.view.plan == l.view.plan.(status := RolledBack) && l'.view.suspended == None && l'.store == l.store
                else && l'.view.plan == l.view.plan && l'.view.suspended == Some(Reverting(at.rest[1..]))
                     && l'.store == RevertStep(l.store, id, l.view.plan, at.rest[0])
            }
  {
  }

  /** Executing and rolling back alone gives the store back exactly when the target had no state or
      was locked; otherwise the target's old state is gone. The source is never altered. */
  lemma {:induction false} RestoresExactlyWhen(s: Service, id: string, clock: string)
    requires id in s.book.plans && InOrder(View(s.book, id)) && s.book.plans[id].status in {Planned, Validated}
    ensures var p := s.book.plans[id];
            var mid := CallAlone(s, Execute(id, clock), Resume(id, clock));
            var end := CallAlone(mid, Rollback(id), Resume(id, clock)).store;
            && end.packs == (if Locked(s.store.packs, p.toPack) then s.store.packs else s.store.packs - {p.toPack})
            && (end.packs == s.store.packs <==> p.toPack !in s.store.packs || Locked(s.store.packs, p.toPack))
            && end.snapshots == s.store.snapshots - {id}
  {
    hide CallAlone, LoneCall, InOrder, Locked, Snapshot, Migrated;
    var p, mid := s.book.plans[id], CallAlone(s, Execute(id, clock), Resume(id, clock));
    RunsAlone(s, id, Execute(id, clock), clock);
    LoneExecutes(Lone(View(s.book, id), s.store), id, clock);
    assert SAGA[..2] != SAGA;
    RunsAlone(mid, id, Rollback(id), clock);
    LoneRollsBack(Lone(View(mid.book, id), mid.store), id, clock);
    RemovedPack(s.store, p.toPack, id, Migrated(Snapshot(s.store.packs, p.fromPack, clock), p.fromPack, id), Snapshot(s.store.packs, p.fromPack, clock));
  }

  lemma {:induction false} RemovedPack(st: Store, pack: string, id: string, state: PackState, snapshot: PackState)
    ensures st.packs[pack := state] - {pack} == st.packs - {pack}
    ensures st.packs - {pack} == st.packs <==> pack !in st.packs
    ensures st.snapshots[id := snapshot] - {id} == st.snapshots - {id}
  {
    assert pack !in st.packs - {pack};
  }
}
