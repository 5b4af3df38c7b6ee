/** Governance of prompt releases: a release is proposed with evidence, activated, and rolled back. */
module PromptGovernance {
  import opened Basics
  import Text

  datatype Prompt = Prompt(promptId: string, version: string, guardrails: seq<string>)

  datatype Library = Library(domainId: string, prompts: seq<Prompt>)

  datatype Mode = Off | Suggest | Shadow

  datatype Status = Approved | Active | RolledBack

  datatype Draft = Draft(promptId: string, mode: Mode, lint: seq<string>, eval: seq<string>, ticket: Option<string>, rollbackVersion: Option<string>)

  datatype Release = Release(promptId: string, domainId: string, version: string, reviewRequired: bool, draft: Draft, status: Status)

  datatype State = State(releases: map<string, Release>, activeByPrompt: map<string, string>)

  /** `id` is the generated release id. */
  datatype Op =
    | Propose(id: string, library: Library, draft: Draft)
    | Activate(id: string)
    | Rollback(id: string, library: Library, version: Option<string>)

  // ----- the operations -----------------------------------------------------

  /** The first prompt of the library with this id; -1 when there is none. */
  function Resolve(prompts: seq<Prompt>, promptId: string): (i: int)
    ensures -1 <= i < |prompts|
    ensures i >= 0 ==> prompts[i].promptId == promptId && forall j :: 0 <= j < i ==> prompts[j].promptId != promptId
    ensures i == -1 ==> forall j :: 0 <= j < |prompts| ==> prompts[j].promptId != promptId
  {
    FirstIndex(prompts, (p: Prompt) => p.promptId == promptId)
  }

  predicate HasVersion(prompts: seq<Prompt>, promptId: string, version: string) {
    exists i :: 0 <= i < |prompts| && prompts[i].promptId == promptId && prompts[i].version == version
  }

  predicate Ticketed(draft: Draft) {
    draft.ticket.Some? && Text.Trim(draft.ticket.value) != ""
  }

  predicate ProposalAccepted(library: Library, draft: Draft) {
    var i := Resolve(library.prompts, draft.promptId);
    && i >= 0 && draft.lint != [] && draft.eval != []
    && (library.prompts[i].guardrails != [] ==> Ticketed(draft))
  }

  function Proposed(library: Library, draft: Draft): Release
    requires ProposalAccepted(library, draft)
  {
    var prompt := library.prompts[Resolve(library.prompts, draft.promptId)];
    Release(prompt.promptId, library.domainId, prompt.version, prompt.guardrails != [], draft, Approved)
  }

  function TargetVersion(release: Release, version: Option<string>): Option<string> {
    if version.Some? then version else release.draft.rollbackVersion
  }

  predicate Accepts(s: State, op: Op) {
    match op
    case Propose(id, library, draft) => id !in s.releases && ProposalAccepted(library, draft)
    case Activate(id) => id in s.releases && s.releases[id].status == Approved && s.releases[id].draft.mode != Off
    case Rollback(id, library, version) =>
      && id in s.releases
      && TargetVersion(s.releases[id], version).Some?
      && HasVersion(library.prompts, s.releases[id].promptId, TargetVersion(s.releases[id], version).value)
  }

  function Step(s: State, op: Op): State {
    if !Accepts(s, op) then s
    else
      match op
      case Propose(id, library, draft) => s.(releases := s.releases[id := Proposed(library, draft)])
      case Activate(id) =>
        State(s.releases[id := s.releases[id].(status := Active)], s.activeByPrompt[s.releases[id].promptId := id])
      case Rollback(id, _, _) =>
        var promptId := s.releases[id].promptId;
        State(s.releases[id := s.releases[id].(status := RolledBack)],
              if promptId in s.activeByPrompt && s.activeByPrompt[promptId] == id then s.activeByPrompt - {promptId} else s.activeByPrompt)
  }

  function Run(ops: seq<Op>): State {
    if ops == [] then State(map[], map[]) else Step(Run(ops[..|ops| - 1]), ops[|ops| - 1])
  }

  function ActiveRelease(s: State, promptId: string): Option<Release> {
    if promptId in s.activeByPrompt && s.activeByPrompt[promptId] in s.releases
    then Some(s.releases[s.activeByPrompt[promptId]]) else None
  }

  // ----- the gate -----------------------------------------------------------

  predicate Evidenced(r: Release) {
    && r.draft.lint != [] && r.draft.eval != [] && r.draft.promptId == r.promptId
    && (r.reviewRequired ==> Ticketed(r.draft))
    && (r.status == Active ==> r.draft.mode != Off)
  }

  predicate Governed(s: State) {
    && (forall id :: id in s.releases ==> Evidenced(s.releases[id]))
    && (forall p :: p in s.activeByPrompt ==>
          && s.activeByPrompt[p] in s.releases
          && s.releases[s.activeByPrompt[p]].promptId == p
          && s.releases[s.activeByPrompt[p]].status == Active)
  }

  lemma {:induction false} StepKeepsGoverned(s: State, op: Op)
    requires Governed(s)
    ensures Governed(Step(s, op))
  {
    hide HasVersion, Resolve;
  }

  lemma {:induction false} RunGoverned(ops: seq<Op>)
    ensures Governed(Run(ops))
  {
    hide Step;
    if ops == [] {
    } else {
      RunGoverned(ops[..|ops| - 1]);
      StepKeepsGoverned(Run(ops[..|ops| - 1]), ops[|ops| - 1]);
    }
  }

  /** Whatever `getActiveRelease` returns, after any calls, passed every gate. */
  lemma {:induction false} ActiveReleaseIsGated(ops: seq<Op>, promptId: string)
    ensures match ActiveRelease(Run(ops), promptId)
            case None => promptId !in Run(ops).activeByPrompt
            case Some(r) =>
              && r.promptId == promptId && r.status == Active && r.draft.mode != Off
              && r.draft.lint != [] && r.draft.eval != []
              && (r.reviewRequired ==> Ticketed(r.draft))
  {
    hide Run;
    RunGoverned(ops);
  }

  // ----- each release over time ---------------------------------------------

  function Rank(status: Status): nat {
    match status case Approved => 0 case Active => 1 case RolledBack => 2
  }

  /** Same release, at the same stage or a later one. */
  predicate Follows(r: Release, later: Release) {
    later == r.(status := later.status) && Rank(r.status) <= Rank(later.status)
  }

  lemma {:induction false} StepFollows(s: State, op: Op, id: string)
    requires id in s.releases
    ensures id in Step(s, op).releases && Follows(s.releases[id], Step(s, op).releases[id])
  {
    hide HasVersion, Resolve;
  }

  /** From any point of a run to its end, a release changes only its status, and only forward. */
  lemma {:induction false} StatusMovesForward(ops: seq<Op>, k: nat, id: string)
    requires k <= |ops| && id in Run(ops[..k]).releases
    ensures id in Run(ops).releases && Follows(Run(ops[..k]).releases[id], Run(ops).releases[id])
  {
    hide Step;
    if k == |ops| {
      assert ops[..k] == ops;
    } else {
      var init := ops[..|ops| - 1];
      assert init[..k] == ops[..k];
      StatusMovesForward(init, k, id);
      StepFollows(Run(init), ops[|ops| - 1], id);
    }
  }

  /** The release as the proposal makes it: from the first prompt of that id in the library, requiring
      review exactly when that prompt has guardrails, with the draft as given. */
  predicate StemsFrom(r: Release, library: Library, draft: Draft, i: nat) {
    && i < |library.prompts| && library.prompts[i].promptId == draft.promptId
    && (forall j :: 0 <= j < i ==> library.prompts[j].promptId != draft.promptId)
    && r.promptId == draft.promptId && r.domainId == library.domainId && r.version == library.prompts[i].version
    && (r.reviewRequired <==> library.prompts[i].guardrails != []) && r.draft == draft
  }

  lemma {:induction false} ProposedStems(library: Library, draft: Draft)
    requires ProposalAccepted(library, draft)
    ensures Resolve(library.prompts, draft.promptId) >= 0
    ensures StemsFrom(Proposed(library, draft), library, draft, Resolve(library.prompts, draft.promptId))
  {
    hide Ticketed;
  }

  /** Every release was proposed by some call, from a library and a draft it still carries; the proposal
      had both kinds of evidence, and a ticket that is not blank if the prompt has guardrails. */
  lemma {:induction false} EveryReleaseWasProposed(ops: seq<Op>, id: string) returns (k: nat, i: nat)
    requires id in Run(ops).releases
    ensures k < |ops| && ops[k].Propose? && ops[k].id == id && Accepts(Run(ops[..k]), ops[k])
    ensures StemsFrom(Run(ops).releases[id], ops[k].library, ops[k].draft, i)
    ensures ops[k].draft.lint != [] && ops[k].draft.eval != []
    ensures ops[k].library.prompts[i].guardrails != [] ==>
              ops[k].draft.ticket.Some? && Text.Trim(ops[k].draft.ticket.value) != ""
  {
    hide Resolve, HasVersion, Text.Trim;
    var init, op := ops[..|ops| - 1], ops[|ops| - 1];
    if id in Run(init).releases {
      k, i := EveryReleaseWasProposed(init, id);
      assert init[..k] == ops[..k];
      StepFollows(Run(init), op, id);
    } else {
      k := |ops| - 1;
      ProposedStems(op.library, op.draft);
      i := Resolve(op.library.prompts, op.draft.promptId);
    }
  }

  /** Call `k` was accepted and activates, or rolls back, the release. */
  predicate Activates(ops: seq<Op>, k: nat, id: string)
    requires k < |ops|
  {
    ops[k].Activate? && ops[k].id == id && Accepts(Run(ops[..k]), ops[k])
  }

  predicate RollsBack(ops: seq<Op>, k: nat, id: string)
    requires k < |ops|
  {
    ops[k].Rollback? && ops[k].id == id && Accepts(Run(ops[..k]), ops[k])
  }

  ghost predicate Activated(ops: seq<Op>, id: string) {
    exists k: nat :: k < |ops| && Activates(ops, k, id)
  }

  ghost predicate WasRolledBack(ops: seq<Op>, id: string) {
    exists k: nat :: k < |ops| && RollsBack(ops, k, id)
  }

  lemma {:induction false} HistoryStep(ops: seq<Op>, id: string)
    requires ops != []
    ensures var init, last := ops[..|ops| - 1], |ops| - 1;
            && (Activated(ops, id) <==> Activated(init, id) || Activates(ops, last, id))
            && (WasRolledBack(ops, id) <==> WasRolledBack(init, id) || RollsBack(ops, last, id))
  {
    hide Run, Accepts;
    var init, last := ops[..|ops| - 1], |ops| - 1;
    forall k: nat | k < last
      ensures Activates(ops, k, id) <==> Activates(init, k, id)
      ensures RollsBack(ops, k, id) <==> RollsBack(init, k, id)
    {
      assert init[..k] == ops[..k];
    }
  }

  /** In every run the status of a release is read off the history: rolled back exactly when some call
      rolled it back, active exactly when some call activated it and none rolled it back, and approved
      until then. */
  lemma {:induction false} StatusIsHistory(ops: seq<Op>, id: string)
    ensures id in Run(ops).releases ==>
              Run(ops).releases[id].status == (if WasRolledBack(ops, id) then RolledBack else if Activated(ops, id) then Active else Approved)
    ensures id !in Run(ops).releases ==> !WasRolledBack(ops, id) && !Activated(ops, id)
  {
    hide Resolve, HasVersion, ProposalAccepted, TargetVersion;
    if ops == [] {
    } else {
      var init := ops[..|ops| - 1];
      StatusIsHistory(init, id);
      HistoryStep(ops, id);
      hide Activated, WasRolledBack;
      assert ops[..|ops| - 1] == init;
    }
  }

  /** A proposal goes through exactly under a new id, for a prompt the library has, with both kinds of
      evidence and, if the first prompt of that id has guardrails, a ticket that is not blank. */
  lemma {:induction false} ProposalGoesThroughExactlyWhen(s: State, id: string, library: Library, draft: Draft)
    ensures Accepts(s, Propose(id, library, draft)) <==>
            && id !in s.releases && draft.lint != [] && draft.eval != []
            && exists i :: && 0 <= i < |library.prompts| && library.prompts[i].promptId == draft.promptId
                           && (forall j :: 0 <= j < i ==> library.prompts[j].promptId != draft.promptId)
                           && (library.prompts[i].guardrails != [] ==> draft.ticket.Some? && Text.Trim(draft.ticket.value) != "")
  {
    hide Text.Trim;
    var i := Resolve(library.prompts, draft.promptId);
  }

  /** An activation goes through exactly for an approved release that is not off, and makes it, and only
      it, the active release of its prompt. */
  lemma {:induction false} ActivationGoesThroughExactlyWhen(s: State, id: string)
    ensures Accepts(s, Activate(id)) <==> id in s.releases && s.releases[id].status == Approved && s.releases[id].draft.mode != Off
    ensures Accepts(s, Activate(id)) ==>
              var s' := Step(s, Activate(id));
              s'.activeByPrompt == s.activeByPrompt[s.releases[id].promptId := id]
              && ActiveRelease(s', s.releases[id].promptId) == Some(s.releases[id].(status := Active))
  {
  }

  /** A rollback goes through exactly for a known release with a target version - the one given, else the
      one of its draft - that the library holds for its prompt. */
  lemma {:induction false} RollbackGoesThroughExactlyWhen(s: State, id: string, library: Library, version: Option<string>)
    ensures Accepts(s, Rollback(id, library, version)) <==>
            id in s.releases && exists i :: && 0 <= i < |library.prompts| && library.prompts[i].promptId == s.releases[id].promptId
                                            && Some(library.prompts[i].version) == (if version.Some? then version else s.releases[id].draft.rollbackVersion)
  {
  }

  // ----- which release is active --------------------------------------------

  /** The release of this prompt that was activated last, read off the history. */
  function LastActivated(ops: seq<Op>, promptId: string): Option<string> {
    if ops == [] then None
    else
      var init, op := ops[..|ops| - 1], ops[|ops| - 1];
      if op.Activate? && Accepts(Run(init), op) && Run(init).releases[op.id].promptId == promptId
      then Some(op.id)
      else LastActivated(init, promptId)
  }

  /** The active release of a prompt is the one activated last, unless that one was rolled back; an
      earlier release never becomes active again by itself. */
  lemma {:induction false} ActiveIsLastActivated(ops: seq<Op>, promptId: string)
    ensures var s, last := Run(ops), LastActivated(ops, promptId);
            && (last.Some? ==> last.value in s.releases && s.releases[last.value].promptId == promptId && s.releases[last.value].status != Approved)
            && (promptId in s.activeByPrompt <==> last.Some? && s.releases[last.value].status == Active)
            && (promptId in s.activeByPrompt ==> s.activeByPrompt[promptId] == last.value)
  {
    hide HasVersion, Resolve, ProposalAccepted;
    if ops == [] {
    } else {
      var init := ops[..|ops| - 1];
      ActiveIsLastActivated(init, promptId);
    }
  }

  // ----- the service object -------------------------------------------------

  class DomainPromptGovernanceService {
    var releases: map<string, Release>
    var activeReleaseByPromptId: map<string, string>

    function View(): State
      reads this
    {
      State(releases, activeReleaseByPromptId)
    }

    constructor ()
      ensures View() == State(map[], map[])
    {
      releases, activeReleaseByPromptId := map[], map[];
    }

    /** Each method returns false when the call throws. */
    method ProposeRelease(id: string, library: Library, draft: Draft) returns (ok: bool)
      requires id !in releases
      modifies this
      ensures View() == Step(old(View()), Propose(id, library, draft))
      ensures ok <==> ProposalAccepted(library, draft)
    {
      var i := Resolve(library.prompts, draft.promptId);
      if i < 0 || draft.lint == [] || draft.eval == [] {
        return false;
      }
      var prompt := library.prompts[i];
      var reviewRequired := |prompt.guardrails| > 0;
      if reviewRequired && (draft.ticket.None? || |Text.Trim(draft.ticket.value)| == 0) {
        return false;
      }
      releases := releases[id := Release(prompt.promptId, library.domainId, prompt.version, reviewRequired, draft, Approved)];
      return true;
    }

    method ActivateRelease(id: string) returns (ok: bool)
      modifies this
      ensures View() == Step(old(View()), Activate(id))
      ensures ok <==> Accepts(old(View()), Activate(id))
    {
      if id !in releases || releases[id].status != Approved || releases[id].draft.mode == Off {
        return false;
      }
      var record := releases[id];
      releases := releases[id := record.(status := Active)];
      activeReleaseByPromptId := activeReleaseByPromptId[record.promptId := id];
      return true;
    }

    method RollbackRelease(library: Library, id: string, version: Option<string>) returns (ok: bool)
      modifies this
      ensures View() == Step(old(View()), Rollback(id, library, version))
      ensures ok <==> Accepts(old(View()), Rollback(id, library, version))
    {
      if id !in releases {
        return false;
      }
      var record := releases[id];
      var target := if version.Some? then version else record.draft.rollbackVersion;
      if target.None? || !HasVersion(library.prompts, record.promptId, target.value) {
        return false;
      }
      releases := releases[id := record.(status := RolledBack)];
      if record.promptId in activeReleaseByPromptId && activeReleaseByPromptId[record.promptId] == id {
        activeReleaseByPromptId := activeReleaseByPromptId - {record.promptId};
      }
      return true;
    }
  }
}
