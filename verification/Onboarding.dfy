/** Onboarding of a domain through four phases, with evidence, blocking and rollback, ending in the
    activation of the domain in the registry. */
module Onboarding {
  import opened Basics
  import opened DomainModel
  import DomainRegistry

  datatype Phase = DomainModeling | PackDevelopment | SecurityCertification | GrayRollout

  const PHASES := [DomainModeling, PackDevelopment, SecurityCertification, GrayRollout]

  function PhaseIndex(p: Phase): (i: nat)
    ensures i < |PHASES| && PHASES[i] == p
    ensures forall j :: 0 <= j < |PHASES| && PHASES[j] == p ==> j == i
  {
    match p
    case DomainModeling => 0
    case PackDevelopment => 1
    case SecurityCertification => 2
    case GrayRollout => 3
  }

  function NextPhase(p: Phase): Option<Phase> {
    var i := PhaseIndex(p);
    if i == |PHASES| - 1 then None else Some(PHASES[i + 1])
  }

  /** Modelling, pack development, security certification, gray rollout, and then the end. */
  lemma {:induction false} PhasesInOrder()
    ensures NextPhase(DomainModeling) == Some(PackDevelopment) && NextPhase(PackDevelopment) == Some(SecurityCertification)
    ensures NextPhase(SecurityCertification) == Some(GrayRollout) && NextPhase(GrayRollout) == None
  {
  }

  datatype Progress = Waiting | InProgress | Completed | Blocked

  datatype Record = Record(phase: Phase, progress: Progress, evidence: seq<string>)

  // ----- the operations on one session --------------------------------------

  function FindProgress(records: seq<Record>, progress: Progress): (i: int)
    ensures -1 <= i < |records|
    ensures i >= 0 ==> records[i].progress == progress && forall j :: 0 <= j < i ==> records[j].progress != progress
    ensures i == -1 ==> forall j :: 0 <= j < |records| ==> records[j].progress != progress
  {
    FirstIndex(records, (r: Record) => r.progress == progress)
  }

  /** The record in progress, else the blocked one; -1 when there is neither. */
  function Current(records: seq<Record>): (i: int)
    ensures -1 <= i < |records|
  {
    var i := FindProgress(records, InProgress);
    if i >= 0 then i else FindProgress(records, Blocked)
  }

  function ReplacePhase(records: seq<Record>, phase: Phase, record: Record): (r: seq<Record>)
    ensures |r| == |records|
    ensures forall i :: 0 <= i < |records| ==> r[i] == if records[i].phase == phase then record else records[i]
  {
    seq(|records|, i requires 0 <= i < |records| => if records[i].phase == phase then record else records[i])
  }

  function FindPhase(records: seq<Record>, phase: Phase): (i: int)
    ensures -1 <= i < |records|
    ensures i >= 0 ==> records[i].phase == phase
    ensures i == -1 ==> forall j :: 0 <= j < |records| ==> records[j].phase != phase
  {
    FirstIndex(records, (r: Record) => r.phase == phase)
  }

  function AdvanceRecords(records: seq<Record>, evidence: seq<string>): seq<Record>
    requires Current(records) >= 0
  {
    var current := records[Current(records)];
    var done := Record(current.phase, Completed, Unique(current.evidence + evidence));
    var replaced := ReplacePhase(records, current.phase, done);
    match NextPhase(current.phase)
    case None => replaced
    case Some(next) =>
      var i := FindPhase(replaced, next);
      if i >= 0 then ReplacePhase(replaced, next, replaced[i].(progress := InProgress))
      else replaced + [Record(next, InProgress, [])]
  }

  function BlockRecords(records: seq<Record>, reason: string): seq<Record>
    requires FindProgress(records, InProgress) >= 0
  {
    var current := records[FindProgress(records, InProgress)];
    ReplacePhase(records, current.phase, Record(current.phase, Blocked, Unique(current.evidence + [reason])))
  }

  function RollbackRecords(records: seq<Record>, to: Phase, checkpoint: string): (r: seq<Record>)
    ensures |r| == |records|
  {
    seq(|records|, i requires 0 <= i < |records| =>
      if records[i].phase == to then Record(to, InProgress, Unique(records[i].evidence + [checkpoint]))
      else if PhaseIndex(records[i].phase) > PhaseIndex(to) then records[i].(progress := Waiting)
      else records[i])
  }

  // ----- the shape of a session ---------------------------------------------

  /** The records are the first phases in order: completed ones, then one in progress or blocked, then
      waiting ones; or all four completed. A completed record has evidence, and no list repeats. */
  predicate Shape(records: seq<Record>, active: int) {
    && 1 <= |records| <= |PHASES| && 0 <= active <= |records|
    && (active == |records| ==> |records| == |PHASES|)
    && forall i :: 0 <= i < |records| ==>
         && records[i].phase == PHASES[i] && Distinct(records[i].evidence)
         && (i < active ==> records[i].progress == Completed && records[i].evidence != [])
         && (i == active ==> records[i].progress in {InProgress, Blocked})
         && (i > active ==> records[i].progress == Waiting)
  }

  ghost predicate Shaped(records: seq<Record>) {
    exists active :: Shape(records, active)
  }

  /** In a well-shaped session the current record is the one after the completed ones. */
  lemma {:induction false} CurrentIsActive(records: seq<Record>, active: int)
    requires Shape(records, active)
    ensures Current(records) == if active < |records| then active else -1
  {
    var i := FindProgress(records, InProgress);
    var j := FindProgress(records, Blocked);
    if active < |records| {
      assert records[active].progress in {InProgress, Blocked};
      if i >= 0 {
        assert records[i].progress == InProgress;
      }
      if j >= 0 {
        assert records[j].progress == Blocked;
      }
    }
  }

  lemma {:induction false} AdvanceKeepsShape(records: seq<Record>, active: int, evidence: seq<string>)
    requires Shape(records, active) && active < |records| && evidence != []
    ensures Current(records) == active
    ensures Shape(AdvanceRecords(records, evidence), active + 1)
  {
    hide FindProgress, Unique, AdvanceRecords;
    CurrentIsActive(records, active);
    var current := records[active];
    assert evidence[0] in current.evidence + evidence;
    assert Unique(current.evidence + evidence) != [];
    NextInOrder(active);
    AdvancedRecords(records, active, evidence);
  }

  /** What advancing does, position by position. */
  lemma {:induction false} AdvancedRecords(records: seq<Record>, active: int, evidence: seq<string>)
    requires InPhaseOrder(records) && Current(records) == active >= 0
    ensures var r := AdvanceRecords(records, evidence);
            && |r| == (if active + 1 == |records| && active + 1 < |PHASES| then |records| + 1 else |records|)
            && r[active] == Record(PHASES[active], Completed, Unique(records[active].evidence + evidence))
            && (forall i :: 0 <= i < |records| && i != active && i != active + 1 ==> r[i] == records[i])
            && (active + 1 < |records| ==> r[active + 1] == records[active + 1].(progress := InProgress))
            && (active + 1 == |records| && active + 1 < |PHASES| ==> r[active + 1] == Record(PHASES[active + 1], InProgress, []))
  {
    hide FindProgress, FindPhase, Unique, Distinct, PhaseIndex;
    NextInOrder(active);
    var done := Record(PHASES[active], Completed, Unique(records[active].evidence + evidence));
    ReplacedAt(records, active, done);
    var replaced := records[active := done];
    if active + 1 < |PHASES| {
      PhaseFound(replaced, active + 1);
      if active + 1 < |records| {
        ReplacedAt(replaced, active + 1, replaced[active + 1].(progress := InProgress));
      }
    }
  }

  predicate InPhaseOrder(records: seq<Record>) {
    |records| <= |PHASES| && forall i :: 0 <= i < |records| ==> records[i].phase == PHASES[i]
  }

  lemma {:induction false} PhasesDiffer(i: nat, j: nat)
    requires i < |PHASES| && j < |PHASES| && PHASES[i] == PHASES[j]
    ensures i == j
  {
    assert PhaseIndex(PHASES[i]) == i;
  }

  lemma {:induction false} ReplacedAt(records: seq<Record>, k: nat, record: Record)
    requires InPhaseOrder(records) && k < |records|
    ensures ReplacePhase(records, PHASES[k], record) == records[k := record]
  {
    forall i | 0 <= i < |records| && records[i].phase == PHASES[k]
      ensures i == k
    {
      PhasesDiffer(i, k);
    }
  }

  lemma {:induction false} PhaseFound(records: seq<Record>, k: nat)
    requires InPhaseOrder(records) && k < |PHASES|
    ensures FindPhase(records, PHASES[k]) == if k < |records| then k else -1
  {
    var i := FindPhase(records, PHASES[k]);
    if i >= 0 {
      PhasesDiffer(i, k);
    }
  }

  lemma {:induction false} NextInOrder(i: nat)
    requires i < |PHASES|
    ensures NextPhase(PHASES[i]) == if i + 1 < |PHASES| then Some(PHASES[i + 1]) else None
  {
  }

  lemma {:induction false} BlockKeepsShape(records: seq<Record>, active: int, reason: string)
    requires Shape(records, active) && FindProgress(records, InProgress) >= 0
    ensures FindProgress(records, InProgress) == active < |records|
    ensures Shape(BlockRecords(records, reason), active)
  {
    hide Unique;
    CurrentIsActive(records, active);
  }

  /** Rolling back keeps the shape exactly when the target phase is not a later one that already has
      a record; then two records would be open at once. */
  lemma {:induction false} RollbackShape(records: seq<Record>, active: int, to: Phase, checkpoint: string)
    requires Shape(records, active) && active < |records|
    ensures var t := PhaseIndex(to);
            Shaped(RollbackRecords(records, to, checkpoint)) <==> t <= active || t >= |records|
    ensures var t := PhaseIndex(to);
            t <= active ==> Shape(RollbackRecords(records, to, checkpoint), t)
    ensures var t := PhaseIndex(to);
            t >= |records| ==> RollbackRecords(records, to, checkpoint) == records
  {
    hide Unique, FindProgress;
    var t, r := PhaseIndex(to), RollbackRecords(records, to, checkpoint);
    assert forall i :: 0 <= i < |records| ==> PhaseIndex(records[i].phase) == i;
    if t <= active {
      assert Shape(r, t);
    } else if t >= |records| {
      assert r == records;
      assert Shape(r, active);
    } else {
      assert r[active].progress in {InProgress, Blocked} && r[t].progress == InProgress;
    }
  }

  // ----- evidence never shrinks ---------------------------------------------

  /** Each record of the old session is still there, its evidence extended at the end if at all. */
  predicate EvidenceGrows(old_: seq<Record>, new_: seq<Record>) {
    && |old_| <= |new_|
    && forall i :: 0 <= i < |old_| ==> old_[i].phase == new_[i].phase && old_[i].evidence <= new_[i].evidence
  }

  /** What holds of a session whatever the rollbacks: its records are the first phases in order, no
      evidence repeats, and a completed record has evidence. */
  predicate Tidy(records: seq<Record>) {
    && records != [] && InPhaseOrder(records)
    && forall i :: 0 <= i < |records| ==>
         Distinct(records[i].evidence) && (records[i].progress == Completed ==> records[i].evidence != [])
  }

  lemma {:induction false} AdvanceGrows(records: seq<Record>, evidence: seq<string>)
    requires Tidy(records) && Current(records) >= 0 && evidence != []
    ensures Tidy(AdvanceRecords(records, evidence)) && EvidenceGrows(records, AdvanceRecords(records, evidence))
  {
    hide FindProgress, Current, Unique, AdvanceRecords, Distinct;
    var active := Current(records);
    assert evidence[0] in records[active].evidence + evidence;
    UniqueExtends(records[active].evidence, evidence);
    AdvancedRecords(records, active, evidence);
    NothingRepeats();
  }

  lemma {:induction false} NothingRepeats()
    ensures Distinct([])
  {
  }

  lemma {:induction false} BlockGrows(records: seq<Record>, reason: string)
    requires Tidy(records) && FindProgress(records, InProgress) >= 0
    ensures Tidy(BlockRecords(records, reason)) && EvidenceGrows(records, BlockRecords(records, reason))
  {
    hide Unique, FindProgress, Distinct;
    var i := FindProgress(records, InProgress);
    UniqueExtends(records[i].evidence, [reason]);
    ReplacedAt(records, i, Record(records[i].phase, Blocked, Unique(records[i].evidence + [reason])));
  }

  lemma {:induction false} RollbackGrows(records: seq<Record>, to: Phase, checkpoint: string)
    requires Tidy(records)
    ensures Tidy(RollbackRecords(records, to, checkpoint))
    ensures EvidenceGrows(records, RollbackRecords(records, to, checkpoint))
  {
    hide Unique, Distinct;
    forall i | 0 <= i < |records| && records[i].phase == to
      ensures records[i].evidence <= Unique(records[i].evidence + [checkpoint])
    {
      UniqueExtends(records[i].evidence, [checkpoint]);
    }
  }

  // ----- sessions and registry together -------------------------------------

  datatype Point = Point(phase: Phase, checkpoint: string, reason: string)

  datatype System = System(domains: DomainRegistry.Domains, sessions: map<string, seq<Record>>, history: map<string, seq<Point>>)

  datatype Op =
    | Start(id: string)
    | Advance(id: string, evidence: seq<string>)
    | Block(id: string, reason: string)
    | Rollback(id: string, to: Phase, checkpoint: string, reason: string)
    | Registry(op: DomainRegistry.Op)

  predicate HasSession(s: System, id: string) {
    id in s.domains && id in s.sessions
  }

  /** Whether the operation goes through as far as the session is concerned. */
  predicate Accepts(s: System, op: Op) {
    match op
    case Start(id) => id in s.domains && id !in s.sessions
    case Advance(id, evidence) => HasSession(s, id) && Current(s.sessions[id]) >= 0 && evidence != []
    case Block(id, _) => HasSession(s, id) && FindProgress(s.sessions[id], InProgress) >= 0
    case Rollback(id, _, _, _) => HasSession(s, id) && Current(s.sessions[id]) >= 0
    case Registry(_) => false
  }

  /** After the last phase: a draft is first registered again, which may throw; then activation, unless
      the domain is active already. */
  ghost function Concluded(domains: DomainRegistry.Domains, id: string): DomainRegistry.Domains
    requires id in domains
  {
    var promotion := DomainRegistry.Register(domains[id].(status := Registered), true);
    if domains[id].status !in {Draft, Validated} then Activated(domains, id)
    else if DomainRegistry.Accepts(domains, promotion) then Activated(DomainRegistry.Step(domains, promotion), id)
    else domains
  }

  ghost function Activated(domains: DomainRegistry.Domains, id: string): DomainRegistry.Domains
    requires id in domains
  {
    if domains[id].status == Active then domains else DomainRegistry.Step(domains, DomainRegistry.Activate(id))
  }

  ghost function Step(s: System, op: Op): System {
    if op.Registry? then s.(domains := DomainRegistry.Step(s.domains, op.op))
    else if !Accepts(s, op) then s
    else
      match op
      case Start(id) => s.(sessions := s.sessions[id := [Record(DomainModeling, InProgress, [])]])
      case Advance(id, evidence) =>
        var records := s.sessions[id];
        var next := s.(sessions := s.sessions[id := AdvanceRecords(records, evidence)]);
        if records[Current(records)].phase == GrayRollout then next.(domains := Concluded(s.domains, id)) else next
      case Block(id, reason) => s.(sessions := s.sessions[id := BlockRecords(s.sessions[id], reason)])
      case Rollback(id, to, checkpoint, reason) =>
        var records := s.sessions[id];
        var points := if id in s.history then s.history[id] else [];
        s.(sessions := s.sessions[id := RollbackRecords(records, to, checkpoint)],
           history := s.history[id := points + [Point(records[Current(records)].phase, checkpoint, reason)]])
  }

  /** A rollback may not aim past the current phase at a phase that already has a record. */
  predicate Backward(s: System, op: Op) {
    op.Rollback? && Accepts(s, op) ==>
      PhaseIndex(op.to) <= Current(s.sessions[op.id]) || PhaseIndex(op.to) >= |s.sessions[op.id]|
  }

  ghost predicate AllShaped(s: System) {
    && (forall id :: id in s.sessions ==> Shaped(s.sessions[id]))
    && Stored(s.domains)
  }

  /** No stored domain is a draft, and each is stored under its own id. */
  predicate Stored(domains: DomainRegistry.Domains) {
    forall id :: id in domains ==> domains[id].status !in {Draft, Validated} && domains[id].domainId == id
  }

  /** One operation: the touched session keeps its shape, and others do not change. */
  lemma {:induction false} SessionStep(s: System, op: Op, active: int)
    requires !op.Registry? && !op.Start? && Accepts(s, op) && Backward(s, op) && Shape(s.sessions[op.id], active)
    ensures op.id in Step(s, op).sessions && Shaped(Step(s, op).sessions[op.id])
    ensures Step(s, op).sessions - {op.id} == s.sessions - {op.id}
  {
    hide AdvanceRecords, BlockRecords, RollbackRecords, FindProgress, EvidenceGrows, Concluded, Shape;
    var records := s.sessions[op.id];
    match op
    case Advance(_, evidence) =>
      CurrentInside(records, active);
      AdvanceKeepsShape(records, active, evidence);
    case Block(_, reason) =>
      BlockKeepsShape(records, active, reason);
    case Rollback(_, to, checkpoint, _) =>
      CurrentInside(records, active);
      RollbackShape(records, active, to, checkpoint);
  }

  lemma {:induction false} CurrentInside(records: seq<Record>, active: int)
    requires Shape(records, active) && Current(records) >= 0
    ensures active < |records| && Current(records) == active
  {
    hide FindProgress;
    CurrentIsActive(records, active);
  }

  lemma {:induction false} FirstSession()
    ensures Shape([Record(DomainModeling, InProgress, [])], 0) && Tidy([Record(DomainModeling, InProgress, [])])
  {
  }

  lemma {:induction false} ConcludedStored(domains: DomainRegistry.Domains, id: string)
    requires Stored(domains) && id in domains
    ensures Stored(Concluded(domains, id))
  {
    hide DomainRegistry.Accepts;
  }

  lemma {:induction false} DomainsStayRegistered(s: System, op: Op)
    requires Stored(s.domains)
    ensures Stored(Step(s, op).domains)
  {
    hide DomainRegistry.Accepts, FindProgress, AdvanceRecords, BlockRecords, RollbackRecords, Concluded;
    if op.Advance? && Accepts(s, op) {
      ConcludedStored(s.domains, op.id);
    }
  }

  lemma {:induction false} StepKeepsShape(s: System, op: Op)
    requires AllShaped(s) && Backward(s, op)
    ensures AllShaped(Step(s, op))
  {
    DomainsStayRegistered(s, op);
    var s' := Step(s, op);
    if !op.Registry? && Accepts(s, op) {
      if op.Start? {
        FirstSession();
      } else {
        var active :| Shape(s.sessions[op.id], active);
        SessionStep(s, op, active);
        hide Step, Shaped, Shape, EvidenceGrows;
        forall id | id in s'.sessions
          ensures Shaped(s'.sessions[id])
        {
          if id != op.id {
            assert id in s'.sessions - {op.id};
          }
        }
      }
    }
  }

  ghost function Run(ops: seq<Op>): System {
    if ops == [] then System(map[], map[], map[]) else Step(Run(ops[..|ops| - 1]), ops[|ops| - 1])
  }

  ghost predicate BackwardRun(ops: seq<Op>) {
    ops == [] || (BackwardRun(ops[..|ops| - 1]) && Backward(Run(ops[..|ops| - 1]), ops[|ops| - 1]))
  }

  /** In every run whose rollbacks go backward, every session keeps its shape. */
  lemma {:induction false} RunShaped(ops: seq<Op>)
    requires BackwardRun(ops)
    ensures AllShaped(Run(ops))
  {
    hide Step, AllShaped, Backward;
    if ops == [] {
      EmptyShaped();
    } else {
      RunShaped(ops[..|ops| - 1]);
      StepKeepsShape(Run(ops[..|ops| - 1]), ops[|ops| - 1]);
    }
  }

  lemma {:induction false} EmptyShaped()
    ensures AllShaped(System(map[], map[], map[]))
  {
  }

  lemma {:induction false} GrowsTransitive(a: seq<Record>, b: seq<Record>, c: seq<Record>)
    requires EvidenceGrows(a, b) && EvidenceGrows(b, c)
    ensures EvidenceGrows(a, c)
  {
  }

  ghost predicate AllTidy(s: System) {
    forall id :: id in s.sessions ==> Tidy(s.sessions[id])
  }

  lemma {:induction false} StepGrows(s: System, op: Op, id: string)
    requires id in s.sessions && Tidy(s.sessions[id])
    ensures id in Step(s, op).sessions && Tidy(Step(s, op).sessions[id])
    ensures EvidenceGrows(s.sessions[id], Step(s, op).sessions[id])
  {
    hide Tidy, EvidenceGrows, AdvanceRecords, BlockRecords, RollbackRecords, FindProgress, Current, Concluded;
    var records := s.sessions[id];
    NothingShrinks(records);
    if !op.Registry? && !op.Start? && Accepts(s, op) && op.id == id {
      match op
      case Advance(_, evidence) => AdvanceGrows(records, evidence);
      case Block(_, reason) => BlockGrows(records, reason);
      case Rollback(_, to, checkpoint, _) => RollbackGrows(records, to, checkpoint);
    }
  }

  lemma {:induction false} StepTidy(s: System, op: Op)
    requires AllTidy(s)
    ensures AllTidy(Step(s, op))
  {
    forall id | id in Step(s, op).sessions
      ensures Tidy(Step(s, op).sessions[id])
    {
      hide Tidy, AdvanceRecords, BlockRecords, RollbackRecords, FindProgress, Current, Concluded;
      if id in s.sessions {
        StepGrows(s, op, id);
      } else {
        FirstSession();
      }
    }
  }

  /** In every run at all, whatever its rollbacks: each session's records are the first phases in order,
      and every completed record has evidence. */
  lemma {:induction false} RunTidy(ops: seq<Op>)
    ensures AllTidy(Run(ops))
  {
    hide Step, Tidy;
    if ops == [] {
    } else {
      RunTidy(ops[..|ops| - 1]);
      StepTidy(Run(ops[..|ops| - 1]), ops[|ops| - 1]);
    }
  }

  /** From any point of any run to its end, a session only gains records and evidence. */
  lemma {:induction false} EvidenceNeverShrinks(ops: seq<Op>, k: nat, id: string)
    requires k <= |ops| && id in Run(ops[..k]).sessions
    ensures id in Run(ops).sessions && EvidenceGrows(Run(ops[..k]).sessions[id], Run(ops).sessions[id])
  {
    hide Step, Tidy, EvidenceGrows;
    if k == |ops| {
      assert ops[..k] == ops;
      NothingShrinks(Run(ops).sessions[id]);
    } else {
      var init := ops[..|ops| - 1];
      assert init[..k] == ops[..k];
      EvidenceNeverShrinks(init, k, id);
      RunTidy(init);
      StepGrows(Run(init), ops[|ops| - 1], id);
      GrowsTransitive(Run(ops[..k]).sessions[id], Run(init).sessions[id], Run(ops).sessions[id]);
    }
  }

  lemma {:induction false} NothingShrinks(records: seq<Record>)
    ensures EvidenceGrows(records, records)
  {
  }

  // ----- what each operation does to a session, record by record --------------

  /** `old_` with `x` added at the end unless it is there already. */
  function Added(old_: seq<string>, x: string): seq<string> {
    if x in old_ then old_ else old_ + [x]
  }

  lemma {:induction false} AddedIsUnique(old_: seq<string>, x: string)
    requires Distinct(old_)
    ensures Unique(old_ + [x]) == Added(old_, x)
  {
    UniqueOfDistinct(old_);
    UniqueSnoc(old_, x);
  }

  /** Record `i` is the first one with this progress. */
  predicate IsFirst(records: seq<Record>, i: int, progress: Progress) {
    0 <= i < |records| && records[i].progress == progress && forall j :: 0 <= j < i ==> records[j].progress != progress
  }

  /** Record `i` is the one the session stands at: the first in progress or, without any, the first
      blocked one. */
  predicate IsOpen(records: seq<Record>, i: int) {
    || IsFirst(records, i, InProgress)
    || (IsFirst(records, i, Blocked) && forall j :: 0 <= j < |records| ==> records[j].progress != InProgress)
  }

  lemma {:induction false} OpenIsCurrent(records: seq<Record>, i: int)
    requires IsOpen(records, i)
    ensures 0 <= i < |records| && Current(records) == i && (records[i].progress == InProgress ==> FindProgress(records, InProgress) == i)
  {
    var p, q := FindProgress(records, InProgress), FindProgress(records, Blocked);
  }

  /** Blocking turns the first record in progress, and no other, into a blocked one whose evidence gains
      the reason. In a well-shaped session no record is in progress then, and the session still stands at
      that record, so that the next advance completes exactly it. */
  lemma {:induction false} BlockMeans(s: System, id: string, reason: string, i: int)
    requires HasSession(s, id) && Tidy(s.sessions[id]) && IsFirst(s.sessions[id], i, InProgress)
    ensures var s', records := Step(s, Block(id, reason)), s.sessions[id];
            && id in s'.sessions && s'.sessions - {id} == s.sessions - {id} && s'.domains == s.domains && s'.history == s.history
            && s'.sessions[id] == records[i := Record(PHASES[i], Blocked, Added(records[i].evidence, reason))]
            && (Shape(records, i) ==>
                  IsOpen(s'.sessions[id], i) && forall j :: 0 <= j < |records| ==> s'.sessions[id][j].progress != InProgress)
  {
    hide Unique, Distinct, FindProgress, Current;
    var records := s.sessions[id];
    OpenIsCurrent(records, i);
    AddedIsUnique(records[i].evidence, reason);
    ReplacedAt(records, i, Record(PHASES[i], Blocked, Unique(records[i].evidence + [reason])));
  }

  /** Without a record in progress a block is refused and changes nothing. */
  lemma {:induction false} BlockRefused(s: System, id: string, reason: string)
    requires HasSession(s, id) && forall i :: 0 <= i < |s.sessions[id]| ==> s.sessions[id][i].progress != InProgress
    ensures Step(s, Block(id, reason)) == s
  {
  }

  /** A call without a session, without an open record or, to advance, without evidence is refused and
      changes nothing; neither does starting again. */
  lemma {:induction false} Refused(s: System, op: Op)
    requires !op.Registry?
    requires || op.id !in s.domains
             || (op.Start? && op.id in s.sessions)
             || (!op.Start? && op.id !in s.sessions)
             || (op.Advance? && op.evidence == [])
             || (!op.Start? && op.id in s.sessions
                 && forall i :: 0 <= i < |s.sessions[op.id]| ==> s.sessions[op.id][i].progress !in {InProgress, Blocked})
    ensures Step(s, op) == s
  {
  }

  /** Starting opens one session with the first phase in progress and no evidence. */
  lemma {:induction false} StartMeans(s: System, id: string)
    requires id in s.domains && id !in s.sessions
    ensures Step(s, Start(id)) == System(s.domains, s.sessions[id := [Record(DomainModeling, InProgress, [])]], s.history)
  {
  }

  /** Advancing completes the current record with the given evidence after its own, and opens the next
      phase with the evidence it may already have; all other records stay. */
  lemma {:induction false} AdvanceMeans(s: System, id: string, evidence: seq<string>, active: int)
    requires HasSession(s, id) && Tidy(s.sessions[id]) && IsOpen(s.sessions[id], active) && evidence != []
    ensures var s', records := Step(s, Advance(id, evidence)), s.sessions[id];
            && id in s'.sessions && s'.history == s.history
            && var r := s'.sessions[id];
            && |r| == (if active + 1 == |records| < |PHASES| then |records| + 1 else |records|)
            && r[active].phase == PHASES[active] && r[active].progress == Completed
            && records[active].evidence <= r[active].evidence && Distinct(r[active].evidence)
            && (forall x :: x in r[active].evidence <==> x in records[active].evidence || x in evidence)
            && (active + 1 < |PHASES| ==>
                  r[active + 1] == Record(PHASES[active + 1], InProgress, if active + 1 < |records| then records[active + 1].evidence else []))
            && (forall i :: 0 <= i < |records| && i != active && i != active + 1 ==> r[i] == records[i])
  {
    hide Unique, FindProgress, AdvanceRecords, Concluded, IsOpen, Current;
    var records := s.sessions[id];
    OpenIsCurrent(records, active);
    AdvancedRecords(records, active, evidence);
    UniqueExtends(records[active].evidence, evidence);
  }

  /** Rolling back reopens the target with the checkpoint in its evidence, sends later phases back to
      waiting with their evidence, leaves earlier ones alone, and notes one point in the history: the
      phase abandoned, the checkpoint and the reason. */
  lemma {:induction false} RollbackMeans(s: System, id: string, to: Phase, checkpoint: string, reason: string, active: int)
    requires HasSession(s, id) && Tidy(s.sessions[id]) && IsOpen(s.sessions[id], active)
    ensures var s', records := Step(s, Rollback(id, to, checkpoint, reason)), s.sessions[id];
            && id in s'.sessions && s'.domains == s.domains
            && |s'.sessions[id]| == |records|
            && (forall i :: 0 <= i < |records| ==>
                  s'.sessions[id][i] == (if PHASES[i] == to then Record(to, InProgress, Added(records[i].evidence, checkpoint))
                                         else if i > PhaseIndex(to) then records[i].(progress := Waiting)
                                         else records[i]))
            && id in s'.history && s'.history - {id} == s.history - {id}
            && s'.history[id] == (if id in s.history then s.history[id] else []) + [Point(PHASES[active], checkpoint, reason)]
  {
    hide Unique, Distinct, FindProgress, IsOpen, Current;
    var records := s.sessions[id];
    OpenIsCurrent(records, active);
    forall i | 0 <= i < |records|
      ensures PhaseIndex(records[i].phase) == i
      ensures Unique(records[i].evidence + [checkpoint]) == Added(records[i].evidence, checkpoint)
    {
      AddedIsUnique(records[i].evidence, checkpoint);
    }
  }

  // ----- the rollback that breaks the shape is reachable ----------------------

  lemma {:induction false} RunSnoc(ops: seq<Op>, op: Op)
    ensures Run(ops + [op]) == Step(Run(ops), op)
  {
    hide Step;
    assert (ops + [op])[..|ops|] == ops;
  }

  /** The run holds the domain and this session for it. */
  ghost predicate InSession(ops: seq<Op>, id: string, records: seq<Record>) {
    HasSession(Run(ops), id) && Run(ops).sessions[id] == records
  }

  lemma {:induction false} OpenSession(d: Definition) returns (ops: seq<Op>)
    requires DomainRegistry.WellFormed(d)
    ensures InSession(ops, d.domainId, [Record(DomainModeling, InProgress, [])])
  {
    hide DomainRegistry.WellFormed;
    var registered := Registry(DomainRegistry.Register(d, true));
    EmptyRun();
    RunSnoc([], registered);
    RunSnoc([registered], Start(d.domainId));
    assert [] + [registered] == [registered];
    ops := [registered] + [Start(d.domainId)];
  }

  lemma {:induction false} SessionAdvances(ops: seq<Op>, id: string, records: seq<Record>, evidence: seq<string>)
    requires InSession(ops, id, records) && Current(records) == 0 && records[0].phase != GrayRollout && evidence != []
    ensures InSession(ops + [Advance(id, evidence)], id, AdvanceRecords(records, evidence))
  {
    hide Run, FindProgress, AdvanceRecords;
    RunSnoc(ops, Advance(id, evidence));
  }

  lemma {:induction false} SessionRollsBack(ops: seq<Op>, id: string, records: seq<Record>, to: Phase, checkpoint: string, reason: string)
    requires InSession(ops, id, records) && Current(records) >= 0
    ensures InSession(ops + [Rollback(id, to, checkpoint, reason)], id, RollbackRecords(records, to, checkpoint))
  {
    hide Run, FindProgress, RollbackRecords;
    RunSnoc(ops, Rollback(id, to, checkpoint, reason));
  }

  /** After one advance, a rollback to the first phase and another one forward to the second, two
      phases are in progress at once. */
  lemma {:induction false} ForwardRollbackBreaks(evidence: seq<string>, checkpoint: string)
    requires evidence != []
    ensures var first := [Record(DomainModeling, InProgress, [])];
            && Current(first) == 0
            && var advanced := AdvanceRecords(first, evidence);
            && Current(advanced) == 1
            && var back := RollbackRecords(advanced, DomainModeling, checkpoint);
            && Current(back) == 0 && !Shaped(RollbackRecords(back, PackDevelopment, checkpoint))
  {
    hide FindProgress, AdvanceRecords, RollbackRecords, Unique;
    var first := [Record(DomainModeling, InProgress, [])];
    FirstSession();
    AdvanceKeepsShape(first, 0, evidence);
    AdvancedRecords(first, 0, evidence);
    var advanced := AdvanceRecords(first, evidence);
    CurrentIsActive(advanced, 1);
    RollbackShape(advanced, 1, DomainModeling, checkpoint);
    var back := RollbackRecords(advanced, DomainModeling, checkpoint);
    CurrentIsActive(back, 0);
    RollbackShape(back, 0, PackDevelopment, checkpoint);
  }

  /** So some run, for any registrable domain, ends with a session that has lost its shape. */
  lemma {:induction false} ShapeCanBeLost(d: Definition) returns (ops: seq<Op>)
    requires DomainRegistry.WellFormed(d)
    ensures d.domainId in Run(ops).sessions && !Shaped(Run(ops).sessions[d.domainId])
  {
    hide Run, Shaped, AdvanceRecords, RollbackRecords, FindProgress, Current;
    var id, first := d.domainId, [Record(DomainModeling, InProgress, [])];
    ForwardRollbackBreaks(["design"], "checkpoint");
    ops := OpenSession(d);
    SessionAdvances(ops, id, first, ["design"]);
    ops := ops + [Advance(id, ["design"])];
    var advanced := AdvanceRecords(first, ["design"]);
    SessionRollsBack(ops, id, advanced, DomainModeling, "checkpoint", "redo");
    ops := ops + [Rollback(id, DomainModeling, "checkpoint", "redo")];
    SessionRollsBack(ops, id, RollbackRecords(advanced, DomainModeling, "checkpoint"), PackDevelopment, "checkpoint", "skip");
    ops := ops + [Rollback(id, PackDevelopment, "checkpoint", "skip")];
  }

  /** In every run at all, the branch that re-registers a draft is never taken. */
  lemma {:induction false} NeverReRegisters(ops: seq<Op>)
    ensures Stored(Run(ops).domains)
  {
    hide Step;
    if ops == [] {
    } else {
      NeverReRegisters(ops[..|ops| - 1]);
      DomainsStayRegistered(Run(ops[..|ops| - 1]), ops[|ops| - 1]);
    }
  }

  /** Completing the last phase activates the domain exactly when it is active already or a registered
      or canary domain that passes the smoke test; the session is completed either way. */
  lemma {:induction false} LastPhaseActivates(s: System, id: string, evidence: seq<string>, active: int)
    requires AllShaped(s) && Accepts(s, Advance(id, evidence)) && Shape(s.sessions[id], active)
    requires active == |PHASES| - 1
    ensures var s' := Step(s, Advance(id, evidence));
            && id in s'.sessions && Shape(s'.sessions[id], |PHASES|)
            && (DomainRegistry.Is(s'.domains, id, Active) <==>
                DomainRegistry.Is(s.domains, id, Active) || DomainRegistry.Accepts(s.domains, DomainRegistry.Activate(id)))
  {
    hide AdvanceRecords, FindProgress, Shaped;
    AdvanceKeepsShape(s.sessions[id], active, evidence);
  }

  // ----- the smoke-test gate across both services ---------------------------

  /** The registry operation an onboarding operation amounts to, if any. */
  ghost function RegistryOps(s: System, op: Op): seq<DomainRegistry.Op> {
    if op.Registry? then [op.op]
    else if op.Advance? && Accepts(s, op) && s.sessions[op.id][Current(s.sessions[op.id])].phase == GrayRollout
            && s.domains[op.id].status !in {Draft, Validated, Active}
    then [DomainRegistry.Activate(op.id)]
    else []
  }

  ghost function RegistryRun(ops: seq<Op>): seq<DomainRegistry.Op> {
    if ops == [] then [] else RegistryRun(ops[..|ops| - 1]) + RegistryOps(Run(ops[..|ops| - 1]), ops[|ops| - 1])
  }

  /** Onboarding changes domains only through registry operations, so what every registry run keeps -
      in particular the smoke-test gate - holds of the two services together. */
  lemma {:induction false} GateHoldsTogether(ops: seq<Op>)
    ensures var past := DomainRegistry.Run(RegistryRun(ops));
            past.domains == Run(ops).domains && DomainRegistry.Gated(past)
  {
    hide DomainRegistry.Accepts, DomainRegistry.Gated, Step;
    if ops == [] {
    } else {
      var init, op := ops[..|ops| - 1], ops[|ops| - 1];
      GateHoldsTogether(init);
      DomainsMoveByRegistry(ops);
      var rops := RegistryRun(init);
      if |RegistryOps(Run(init), op)| == 1 {
        var rop := RegistryOps(Run(init), op)[0];
        assert (rops + [rop])[..|rops| + 1 - 1] == rops;
        DomainRegistry.RunGated(rops);
        DomainRegistry.StepKeepsGate(DomainRegistry.Run(rops), rop);
      } else {
        assert rops + [] == rops;
      }
    }
    DomainRegistry.RunGated(RegistryRun(ops));
  }

  /** Call `k` registers `id` in a live status with a definition that fails the smoke test. */
  ghost predicate RegistersFailing(ops: seq<Op>, k: nat, id: string)
    requires k < |ops|
  {
    && ops[k].Registry? && ops[k].op.Register? && ops[k].op.definition.domainId == id
    && DomainRegistry.Accepts(Run(ops[..k]).domains, ops[k].op)
    && DomainRegistry.SlippedThrough(ops[k].op.definition)
  }

  /** In every run of the two services a domain is past the gate without passing the smoke test exactly
      when some call registered it so; onboarding never lets one through. */
  lemma {:induction false} SlipsThroughTogether(ops: seq<Op>, id: string)
    ensures id in Run(ops).domains && DomainRegistry.SlippedThrough(Run(ops).domains[id]) <==>
            exists k: nat :: k < |ops| && RegistersFailing(ops, k, id)
  {
    hide DomainRegistry.SlippedThrough, DomainRegistry.Accepts, DomainRegistry.Step, Step, Run;
    if ops == [] {
      assert Run(ops).domains == map[] by {
        EmptyRun();
      }
    } else {
      var init, n := ops[..|ops| - 1], |ops| - 1;
      SlipsThroughTogether(init, id);
      DomainsMoveByRegistry(ops);
      var rops := RegistryOps(Run(init), ops[n]);
      if rops != [] {
        DomainRegistry.SlipsStep(Run(init).domains, rops[0], id);
      }
      assert RegistersFailing(ops, n, id) <==>
             && ops[n].Registry? && ops[n].op.Register? && ops[n].op.definition.domainId == id
             && DomainRegistry.Accepts(Run(init).domains, ops[n].op)
             && DomainRegistry.SlippedThrough(ops[n].op.definition);
      hide RegistersFailing;
      forall k: nat | k < n
        ensures RegistersFailing(init, k, id) <==> RegistersFailing(ops, k, id)
      {
        PrefixRegisters(ops, k, id);
      }
    }
  }

  lemma {:induction false} EmptyRun()
    ensures Run([]) == System(map[], map[], map[])
  {
  }

  lemma {:induction false} PrefixRegisters(ops: seq<Op>, k: nat, id: string)
    requires k + 1 < |ops|
    ensures RegistersFailing(ops[..|ops| - 1], k, id) <==> RegistersFailing(ops, k, id)
  {
    hide Run, DomainRegistry.Accepts, DomainRegistry.SlippedThrough;
    assert ops[..|ops| - 1][..k] == ops[..k];
  }

  lemma {:induction false} DomainsMoveByRegistry(ops: seq<Op>)
    requires ops != []
    ensures var s, op := Run(ops[..|ops| - 1]), ops[|ops| - 1];
            var rops := RegistryOps(s, op);
            && |rops| <= 1
            && Run(ops).domains == if rops == [] then s.domains else DomainRegistry.Step(s.domains, rops[0])
  {
    hide DomainRegistry.Accepts, FindProgress, AdvanceRecords, BlockRecords, RollbackRecords;
    var init, op := ops[..|ops| - 1], ops[|ops| - 1];
    if op.Advance? {
      NeverReRegisters(init);
    }
  }

  // ----- the onboarding object ----------------------------------------------

  class DomainOnboardingService {
    const registry: DomainRegistry.DomainRegistryService
    var sessions: map<string, seq<Record>>
    var rollbackHistory: map<string, seq<Point>>

    function View(): System
      reads this, registry
    {
      System(registry.registry, sessions, rollbackHistory)
    }

    constructor (registry: DomainRegistry.DomainRegistryService)
      ensures this.registry == registry && sessions == map[] && rollbackHistory == map[]
    {
      this.registry := registry;
      sessions, rollbackHistory := map[], map[];
    }

    method StartOnboarding(id: string) returns (ok: bool)
      modifies this
      ensures View() == Step(old(View()), Start(id))
      ensures ok <==> id in registry.registry
    {
      if id !in registry.registry {
        return false;
      }
      if id !in sessions {
        sessions := sessions[id := [Record(DomainModeling, InProgress, [])]];
      }
      return true;
    }

    /** Returns false when the call throws, which it may also do after the session was updated. */
    method AdvancePhase(id: string, evidence: seq<string>) returns (ok: bool)
      modifies this, registry
      ensures View() == Step(old(View()), Advance(id, evidence))
      ensures ok <==> Accepts(old(View()), Advance(id, evidence))
                      && (old(sessions[id][Current(sessions[id])].phase) == GrayRollout ==> DomainRegistry.Is(registry.registry, id, Active))
    {
      hide DomainRegistry.Accepts, FindProgress;
      if id !in registry.registry || id !in sessions {
        return false;
      }
      var records := sessions[id];
      var i := Current(records);
      if i < 0 || evidence == [] {
        return false;
      }
      var current := records[i];
      var done := Record(current.phase, Completed, Unique(current.evidence + evidence));
      var replaced := ReplacePhase(records, current.phase, done);
      var nextPhase := NextPhase(current.phase);
      if nextPhase.None? {
        sessions := sessions[id := replaced];
        ok := ConcludeOnboarding(id);
        return;
      }
      var existing := FindPhase(replaced, nextPhase.value);
      if existing >= 0 {
        sessions := sessions[id := ReplacePhase(replaced, nextPhase.value, replaced[existing].(progress := InProgress))];
      } else {
        sessions := sessions[id := replaced + [Record(nextPhase.value, InProgress, [])]];
      }
      return true;
    }

    method ConcludeOnboarding(id: string) returns (ok: bool)
      requires id in registry.registry
      modifies registry
      ensures registry.registry == Concluded(old(registry.registry), id)
      ensures ok <==> DomainRegistry.Is(registry.registry, id, Active)
    {
      hide DomainRegistry.Accepts;
      var domain := registry.registry[id];
      if domain.status == Draft || domain.status == Validated {
        ok := registry.RegisterDomain(domain.(status := Registered), true);
        if !ok {
          return;
        }
      }
      if registry.registry[id].status != Active {
        ok := registry.ActivateDomain(id);
        return;
      }
      return true;
    }

    method BlockPhase(id: string, reason: string) returns (ok: bool)
      modifies this
      ensures View() == Step(old(View()), Block(id, reason))
      ensures ok <==> Accepts(old(View()), Block(id, reason))
    {
      if id !in registry.registry || id !in sessions || FindProgress(sessions[id], InProgress) < 0 {
        return false;
      }
      var current := sessions[id][FindProgress(sessions[id], InProgress)];
      var blocked := Record(current.phase, Blocked, Unique(current.evidence + [reason]));
      sessions := sessions[id := ReplacePhase(sessions[id], current.phase, blocked)];
      return true;
    }

    method RollbackPhase(id: string, to: Phase, checkpoint: string, reason: string) returns (ok: bool)
      modifies this
      ensures View() == Step(old(View()), Rollback(id, to, checkpoint, reason))
      ensures ok <==> Accepts(old(View()), Rollback(id, to, checkpoint, reason))
    {
      hide FindProgress;
      if id !in registry.registry || id !in sessions || Current(sessions[id]) < 0 {
        return false;
      }
      var records := sessions[id];
      var point := Point(records[Current(records)].phase, checkpoint, reason);
      var history := if id in rollbackHistory then rollbackHistory[id] else [];
      rollbackHistory := rollbackHistory[id := history + [point]];
      sessions := sessions[id := RollbackRecords(records, to, checkpoint)];
      return true;
    }
  }
}
