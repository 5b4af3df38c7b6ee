# Verified core of the domain platform

This project models the parts of the platform whose correctness depends on loops, recursion or whole
runs, and proves what they are for:

- **Division loader** - the hand-written indentation-driven YAML reader (`YamlParser`), where its
  readers stop (`YamlStructure`), what each kind of line and scalar means
  (`YamlMeaning`, `YamlScalars`), exactly which token lines it accepts and which line a rejection
  names (`YamlAcceptance`, `YamlRejection`), that no line is silently dropped (`YamlConservation`),
  that reading undoes a canonical printer (`YamlRoundTrip`), and the structural checks on a loaded workflow (`WorkflowConnectivity`).
- **Plugin runtime** - the request/response protocol of the host (`RuntimeHost`,
  `RuntimeHostObject`) and newline framing over arbitrary chunks (`LineFraming`).
- **Graph algorithms** - cycle detection in the trigger graph (`FeedbackLoop`) and in the smoke test
  (`SmokeTest`), both over `Digraph`, and cascading revocation (`Revocation`).
- **Pack migration** - interleaved sagas (`PackMigration`, `PackMigrationObject`) and what they leave in
  the store they share (`PackMigrationStore`).
- **Evaluation store** - five maps under one recency order (`EvalFramework`, `EvalFrameworkLists`,
  `EvalFrameworkObject`).
- **Governance state machines** - `DomainRegistry`, `Onboarding`, `PackAssociation`,
  `PromptGovernance`.
- **Fixture redactor** - the wrap-around hash (`CorrelationHash`), the tree rewriting
  (`FixtureRedactor`) and what its report says (`RedactionReport`).

A service that updates fields is a class; each of its methods is proved to perform one transition of
a specification (`Step`), and the properties are proved of every run of those transitions. A call
that throws returns false, or an error outcome, and leaves the state the code would leave. An
asynchronous call is cut where it awaits. Clocks, generated ids, verdicts of code outside the model
and the arrival of messages are parameters. `Text` holds the string operations of the JavaScript
runtime the components rely on, `Basics` what several components share, and `DomainModel` the parts of
a domain definition.

Where the code does something its description does not suggest, the model follows the code and the
fact is a lemma: a quoted array string with a colon is read as an object; the exit handler does not
ask which child exited; rolling back a migration deletes the target instead of restoring it; a
rollback of onboarding may aim at a later phase; a call can be left waiting for ever when a child is
replaced before it is ready; the pack index takes the empty domain name for no
domain; a repeated step name hides a cycle; a domain can be registered as active without the smoke
test; after a newer release of a prompt is rolled back no release is active.

`dafny verify dfyconfig.toml` checks the whole project.

## Model

| member | source | states |
|---|---|---|
| YamlParser.ParseLimitedYaml | src/domains/governance/division-loader-support.ts:124-140 | The loop-and-recursion reader terminates on every text and returns what the specification `Document` reads from its tokens, errors included. |
| YamlParser.ParseBlock | src/domains/governance/division-loader-support.ts:142-159 | Same outcome as the specification reader `Block`, which never moves back and stays in bounds. |
| YamlParser.ParseObject | src/domains/governance/division-loader-support.ts:165-208 | The object loop computes the recursive specification `ObjectFrom`, error lines included. |
| YamlParser.ParseArray | src/domains/governance/division-loader-support.ts:210-271 | The array loop computes the recursive specification `ArrayFrom`, error lines included. |
| YamlScalars.EveryScalarReads | src/domains/governance/division-loader-support.ts:300-317 | What every scalar text reads as: the three literals, a numeral its number, text in either quotes the text without them, a list in brackets the scalars of its trimmed comma-separated parts in order, and anything else itself as a string. |
| YamlScalars.WrittenListReads | src/domains/governance/division-loader-support.ts:304-312 | Texts written between brackets with commas read as the scalars they spell, in order. |
| YamlMeaning.TokensAreVisibleLines | src/domains/governance/division-loader-support.ts:109-122 | The tokens are exactly the lines that show something, in order, each with its own number, indentation and trimmed text. |
| YamlMeaning.IgnoredExactlyWhen | src/domains/governance/division-loader-support.ts:112-116 | A line is skipped if and only if it is blank or its first visible character starts a comment. |
| YamlMeaning.IndentIsBlanks | src/domains/governance/division-loader-support.ts:109-122 | The indentation counts exactly the blanks before the first other character. |
| YamlMeaning.LineEndsReadAlike | src/domains/governance/division-loader-support.ts:109-111 | Carriage returns before line feeds make no difference to the tokens. |
| YamlMeaning.PropertyMeans | src/domains/governance/division-loader-support.ts:165-208 | A line `key: rest` gives its trimmed key the scalar the rest spells, or the block below it, or null. |
| YamlMeaning.BareItemMeans | src/domains/governance/division-loader-support.ts:225-240 | A bare dash stands for the block below it, or null. |
| YamlMeaning.ScalarItemMeans | src/domains/governance/division-loader-support.ts:241-271 | A dash with text that shows no colon is the scalar the text spells, whatever stands below. |
| YamlMeaning.KeyedItemMeans | src/domains/governance/division-loader-support.ts:246-267 | A dash with `key: rest` is an object with that property first, then the properties below it, of which one with the same key wins. |
| YamlMeaning.ObjectMeans | src/domains/governance/division-loader-support.ts:165-208 | An object holds each key it reads once, in the order of first appearance, and the value given last wins. |
| YamlMeaning.ArrayMeans | src/domains/governance/division-loader-support.ts:210-271 | An array holds exactly the items it reads, in order. |
| YamlRejection.RejectionNamesFirstBad | src/domains/governance/division-loader-support.ts:124-271 | A rejection names the first line that is ill spelled or does not fit; an indentation error is deeper than the first line, trailing content is not, and a mapping error is an ill-spelled line or a bare dash where a property is read. |
| YamlStructure.BlockLayout | src/domains/governance/division-loader-support.ts:142-159 | A block consumes lines at its depth or an even number of blanks deeper and stops only at end of input, a dedent, or a change of kind at its depth. |
| YamlStructure.ObjectLayout | src/domains/governance/division-loader-support.ts:165-208 | The same for objects; no line at the object's own depth is an array item. |
| YamlStructure.ArrayLayout | src/domains/governance/division-loader-support.ts:210-271 | The same for arrays; every line at the array's own depth is an item. |
| YamlStructure.DocumentLayout | src/domains/governance/division-loader-support.ts:124-140 | A document that reads normally has had every token line read, and every line is indented evenly from the first. |
| YamlStructure.DocumentShape | src/domains/governance/division-loader-support.ts:124-271 | Every value the reader can return has distinct keys in each object and no empty object below the top, so an empty nested object has no spelling. |
| YamlAcceptance.AcceptsExactlyWhen | src/domains/governance/division-loader-support.ts:124-271 | A document is read without error if and only if every token line is well spelled and continues the block of its anchor, the last earlier line that is not deeper, or opens one exactly two deeper right below an anchor that may have it. |
| YamlAcceptance.BlockExact | src/domains/governance/division-loader-support.ts:142-159 | A block reader consumes everything up to the next shallower line if and only if those lines make one such block. |
| YamlConservation.DocumentConserves | src/domains/governance/division-loader-support.ts:124-271 | No line is silently dropped: the value has as many entries as its lines spell if and only if no object repeats a key, a condition on the lines alone; otherwise it has fewer. |
| YamlConservation.ObjectConserves | src/domains/governance/division-loader-support.ts:165-208 | The same for an object read from any point with any properties already collected. |
| YamlConservation.ItemConserves | src/domains/governance/division-loader-support.ts:210-271 | The same for each of the four kinds of array item. |
| YamlRoundTrip.RoundTrip | src/domains/governance/division-loader-support.ts:109-317 | For every value of the printable fragment, tokenizing and reading its canonical printing gives exactly that value. |
| YamlRoundTrip.BlockReads | src/domains/governance/division-loader-support.ts:142-271 | A printed block found anywhere among token lines is read back whole and the reader stops right after it. |
| YamlRoundTrip.TokensRead | src/domains/governance/division-loader-support.ts:109-122 | The tokenizer gives back the indentation and text of every printed line. |
| YamlRoundTrip.ScalarReads | src/domains/governance/division-loader-support.ts:300-317 | Every printed scalar reads back as itself, quoted strings of any content included. |
| YamlRoundTrip.StringItemReadsBackExactlyWhen | src/domains/governance/division-loader-support.ts:246-317 | A quoted array string reads back as itself if and only if it holds no colon. |
| YamlRoundTrip.ColonItemReadsAsObject | src/domains/governance/division-loader-support.ts:246-298 | The colon restriction is needed: every quoted array string that holds a colon is read as an object. |
| FeedbackLoop.TriggerVisitor.Visit | src/interaction/architecture-remediation.ts:73-92 | The recursive visit keeps the stack a path of the graph and the finished nodes a topological order; it reports a loop only if there is a cycle. |
| FeedbackLoop.DetectTriggerFeedbackLoop | src/interaction/architecture-remediation.ts:73-92 | True if and only if the trigger edges contain a directed cycle, self-loops included. |
| Digraph.TopologicalMeansAcyclic | src/interaction/architecture-remediation.ts:73-92 | A topological order that covers the graph excludes every cycle. |
| Digraph.PathClosesCycle | src/interaction/architecture-remediation.ts:80-86 | A node met again while still on the path closes a cycle. |
| SmokeTest.StepVisitor.Dfs | src/domains/registry/domain-smoke-test.ts:70-95 | The search that goes on after a hit: the flag is only set when there is a cycle, and while it is unset the visited nodes form a topological order. |
| SmokeTest.BuildStepGraph | src/domains/registry/domain-smoke-test.ts:59-68 | The graph holds each step name with the dependencies of the last step of that name. |
| SmokeTest.ValidateDependencyGraph | src/domains/registry/domain-smoke-test.ts:59-104 | Passes if and only if the step graph has no directed cycle, and then a covering topological order exists. |
| SmokeTest.AgreesWithFeedbackLoop | src/domains/registry/domain-smoke-test.ts:59-104 | On the same edges the gate and the trigger feedback-loop detector give the same answer. |
| SmokeTest.PassingOrdersEveryWorkflow | src/domains/registry/domain-smoke-test.ts:59-104 | With step names distinct across workflows, passing gives every single workflow an order with dependencies first. |
| SmokeTest.SharedNamesHideACycle | src/domains/registry/domain-smoke-test.ts:63-68 | Without distinct names the gate can pass although one workflow is circular by itself. |
| SmokeTest.RunSmokeTest | src/domains/registry/domain-smoke-test.ts:19-57 | Each issue is reported exactly when its condition holds, and none exactly when the smoke test passes. |
| Revocation.CascadeRevokePermission | src/org-governance/architecture-remediation.ts:104-120 | The fixpoint loop terminates, also on circular links, and returns exactly the permissions derived from the revoked one, sorted and without duplicates. |
| Revocation.LessMeans | src/org-governance/architecture-remediation.ts:119-119 | The sort order is dictionary order: a proper prefix, or the smaller character at the first difference. |
| Revocation.OrderIndependent | src/org-governance/architecture-remediation.ts:104-120 | The answer does not depend on the order or repetition of the permission list. |
| Revocation.ClosedHoldsChain | src/org-governance/architecture-remediation.ts:108-118 | A list closed under derivation holds every chain that starts in it. |
| WorkflowConnectivity.ValidateStructure | src/domains/governance/division-loader.ts:701-795 | A workflow of several steps is accepted if and only if it has no orphan, no unnamed step and a connected undirected dependency graph; a rejection names the first orphan or the first step not linked to the first step. |
| WorkflowConnectivity.CollectReferences | src/domains/governance/division-loader.ts:704-739 | The referenced set holds exactly the steps some step depends on. |
| WorkflowConnectivity.BuildGraph | src/domains/governance/division-loader.ts:756-769 | The adjacency sets hold exactly the undirected dependency edges between steps. |
| WorkflowConnectivity.Search | src/domains/governance/division-loader.ts:770-784 | The queue loop visits exactly the steps linked to the first one when no step is unnamed, and never an unnamed one. |
| WorkflowConnectivity.FirstReachesAll | src/domains/governance/division-loader.ts:770-792 | Reaching every step from the first is the same as any two steps being linked. |
| WorkflowConnectivity.OrphanCheckRedundant | src/domains/governance/division-loader.ts:741-793 | A connected workflow has an orphan if and only if a step with a repeated id is one; so with distinct ids the orphan check rejects only what the search rejects. |
| WorkflowConnectivity.RepeatedIdOrphan | src/domains/governance/division-loader.ts:741-750 | With a repeated id the orphan check rejects a connected, fully named workflow. |
| LineFraming.ChildInput.OnData | src/domains/registry/plugin-runtime-child.ts:261-294 | The buffer loop handles the non-empty trimmed lines of buffer and chunk and keeps what follows the last newline. |
| LineFraming.ChunkingIrrelevant | src/domains/registry/plugin-runtime-child.ts:261-294 | However a stream is cut into chunks, the lines handled are those of its newline-terminated prefix. |
| LineFraming.MessageHandled | src/domains/registry/plugin-runtime-child.ts:264-279 | A message on a line of its own is handled without the space around it. |
| LineFraming.BlankLineSkipped | src/domains/registry/plugin-runtime-child.ts:269-273 | A blank line is skipped. |
| LineFraming.CutAnywhere | src/domains/registry/plugin-runtime-child.ts:261-294 | Cutting a stream in two at any place and reading the pieces in turn handles the same lines. |
| LineFraming.WireRoundTrip | src/domains/registry/plugin-runtime-child.ts:261-294 | Messages that hold no newline arrive whole and in order, however the encoded stream is chunked. |
| LineFraming.HostOutput.OnData | src/domains/registry/plugin-runtime-host.ts:448-477 | The host's loop handles lines up to a protocol violation, which empties the buffer and ends the reading. |
| LineFraming.HostChunkingIrrelevant | src/domains/registry/plugin-runtime-host.ts:448-477 | Whatever the chunking, the host handles the lines through the first violation and no more. |
| LineFraming.HostHandlesAll | src/domains/registry/plugin-runtime-host.ts:448-477 | The host handles every line if and only if no line but the last violates the protocol. |
| RuntimeHost.StepKeepsRequests | src/domains/registry/plugin-runtime-host.ts:95-249 | Every event keeps each issued request unsettled exactly while it is pending and its timer armed, within its time limit. |
| RuntimeHost.StepKeepsHandshake | src/domains/registry/plugin-runtime-host.ts:87-249 | Every event keeps child and ready promise together, and the open resolver unsettled. |
| RuntimeHost.RunKeeps | src/domains/registry/plugin-runtime-host.ts:87-249 | Both hold at every event boundary of every run. |
| RuntimeHost.RequestsInEveryRun | src/domains/registry/plugin-runtime-host.ts:95-249 | From the start of any run: a request is pending if and only if issued and without outcome, and it is neither pending nor settled later than max(1, timeoutMs + 1000) after issue. |
| RuntimeHost.FirstSettleWins | src/domains/registry/plugin-runtime-host.ts:95-249 | The outcome of a pending request is that of the first event, read off the event list alone, that answers it, fails its send, ends the child or exhausts its time; with no such event it stays pending. |
| RuntimeHost.AnswerDecides | src/domains/registry/plugin-runtime-host.ts:95-249 | In every run a pending request is resolved with x if and only if its first deciding event is the successful answer x, rejected with a remote error if and only if it is that failure, and likewise for a failed send, a timeout and an exit; it stays pending if and only if none decides it. |
| RuntimeHost.FirstReadyWins | src/domains/registry/plugin-runtime-host.ts:160-240 | In every run the open ready promise ends as the first ready message or exit says, for good, and not at all when a child is spawned before. |
| RuntimeHost.CallWaits | src/domains/registry/plugin-runtime-host.ts:95-100 | A new call waits for the promise of the child it finds or starts, and other calls wait on as before. |
| RuntimeHost.CallComesBack | src/domains/registry/plugin-runtime-host.ts:100-133 | A call whose promise settled issues its request, to the current child and with its timer, if and only if the promise was fulfilled and an available child is there; otherwise it is refused. |
| RuntimeHost.ExitsAreReported | src/domains/registry/plugin-runtime-host.ts:135-240 | Every exit is reported once, as expected if and only if a stop of the running child was under way. |
| RuntimeHost.CurrentChild | src/domains/registry/plugin-runtime-host.ts:87-240 | The current child is the one spawned last until an exit or the stop of a child that is gone. |
| RuntimeHost.OutcomeIsFinal | src/domains/registry/plugin-runtime-host.ts:95-249 | A settled outcome never changes in any continuation. |
| RuntimeHost.LateResponseIgnored | src/domains/registry/plugin-runtime-host.ts:205-211 | A response to a settled or unknown request changes nothing at all. |
| RuntimeHost.ExitSettlesEverything | src/domains/registry/plugin-runtime-host.ts:221-240 | After an exit nothing is pending, no timer is armed and every issued request has an outcome. |
| RuntimeHost.AbandonedForEver | src/domains/registry/plugin-runtime-host.ts:160-165 | A ready promise whose resolver was replaced while open never settles, and every call that awaits it goes on waiting in every continuation. |
| RuntimeHost.AbandonedBySpawn | src/domains/registry/plugin-runtime-host.ts:87-93 | A ready promise is abandoned if and only if it is the open one and the event asks for a child when none can be reused, a condition on the state before the event. |
| RuntimeHost.CallLeftWaiting | src/domains/registry/plugin-runtime-host.ts:87-100 | It is reachable: a call awaits a child that is gone when the host is started again, and waits for ever. |
| RuntimeHost.RejectsForeignExactlyWhen | src/domains/registry/plugin-runtime-host.ts:171-185 | The exit of a child rejects a request sent to another child if and only if one is pending. |
| RuntimeHost.OrderlyExactlyWhen | src/domains/registry/plugin-runtime-host.ts:171-240 | While all pending requests belong to the last child, an event neither rejects a foreign request nor leaves one behind if and only if it replaces no child, and reports no other child's exit, with requests pending. |
| RuntimeHost.OrderlyRunsRejectTheirOwn | src/domains/registry/plugin-runtime-host.ts:87-249 | In every run of such events no exit ever rejects a request of another child. |
| RuntimeHost.AnyExitRejects | src/domains/registry/plugin-runtime-host.ts:221-240 | Whichever child exits, every pending request is rejected and the current child dropped. |
| RuntimeHost.StaleExitRejectsSuccessor | src/domains/registry/plugin-runtime-host.ts:171-193 | A reachable run in which the late exit of a discarded child rejects a request sent to its successor. |
| RuntimeHost.RequestLimit | src/domains/registry/plugin-runtime-host.ts:106-106 | The limit is the larger of 1 and timeoutMs + 1000. |
| RuntimeHostObject.PluginRuntimeHost.StartHost | src/domains/registry/plugin-runtime-host.ts:87-93 | Reuses an available child with a ready promise, else spawns, as the transition system says. |
| RuntimeHostObject.PluginRuntimeHost.InvokeAction | src/domains/registry/plugin-runtime-host.ts:95-100 | Starts the child if need be and awaits the current ready promise. |
| RuntimeHostObject.PluginRuntimeHost.ResumeInvoke | src/domains/registry/plugin-runtime-host.ts:100-133 | After the ready promise settles: refuses, or issues the request with its timer. |
| RuntimeHostObject.PluginRuntimeHost.HandleReadyMessage | src/domains/registry/plugin-runtime-host.ts:195-204 | Resolves the open ready promise once. |
| RuntimeHostObject.PluginRuntimeHost.HandleResponseMessage | src/domains/registry/plugin-runtime-host.ts:205-219 | Settles a pending request from the reply and ignores any other. |
| RuntimeHostObject.PluginRuntimeHost.HandleExit | src/domains/registry/plugin-runtime-host.ts:221-240 | Rejects the ready promise and all pending requests and resets the link, reporting whether the exit was unexpected. |
| RuntimeHostObject.PluginRuntimeHost.RejectEach | src/domains/registry/plugin-runtime-host.ts:227-231 | The loop over pending requests rejects exactly the given ones that have no outcome yet. |
| RuntimeHostObject.PluginRuntimeHost.HandleSendFailure | src/domains/registry/plugin-runtime-host.ts:242-249 | Drops the request if still pending and rejects it unless settled. |
| RuntimeHostObject.PluginRuntimeHost.StopHost | src/domains/registry/plugin-runtime-host.ts:135-158 | Marks the host as stopping, or drops a child that is already gone. |
| RuntimeHostObject.PluginRuntimeHost.AdvanceClock | src/domains/registry/plugin-runtime-host.ts:107-116 | Every timer that comes due rejects its own request. |
| PackMigration.DispatchIsExact | src/domains/business-pack/pack-migration-service.ts:464-513 | Whatever the packs are called, the suffix tests of both step functions find the step a trimmed node id was built for. |
| PackMigration.StepSplits | src/domains/business-pack/pack-migration-service.ts:214-341 | An event on a plan changes that plan's records as a function of those records alone, the store as a function of both, and no other plan's records. |
| PackMigration.RunInOrder | src/domains/business-pack/pack-migration-service.ts:214-454 | Under any interleaving each plan's tried nodes are a prefix of export, validate, transfer, verify; its execute trace that prefix or that prefix less its failing last node; its rollback trace a prefix of the exact reverse. |
| PackMigration.OthersLeaveAlone | src/domains/business-pack/pack-migration-service.ts:214-454 | Events on other plans leave a plan's status, nodes and trace as they are. |
| PackMigration.RolledBackIsTerminal | src/domains/business-pack/pack-migration-service.ts:279-341 | A rolled-back plan never changes again, whatever event comes. |
| PackMigration.RolledBackForEver | src/domains/business-pack/pack-migration-service.ts:279-341 | In every continuation of a run a rolled-back plan keeps its status, nodes and trace. |
| PackMigration.SourcesSurvive | src/domains/business-pack/pack-migration-service.ts:464-513 | Under any interleaving a pack that no plan migrates into holds exactly the state last seeded for it, however often and concurrently it serves as a source. |
| PackMigrationStore.PacksHoldTheirContent | src/domains/business-pack/pack-migration-service.ts:464-513 | Under any interleaving every pack, shared targets included, holds what the last seed, transfer or reverted transfer on it left; a transfer leaves what its source held when the plan was executed, with the provenance. |
| PackMigrationStore.SnapshotIsExport | src/domains/business-pack/pack-migration-service.ts:464-513 | Whatever other plans do in between, a plan between two steps has a snapshot, and it is the state its source had when the plan was executed. |
| PackMigrationStore.TransferCarriesTheSource | src/domains/business-pack/pack-migration-service.ts:464-495 | Under any interleaving a transfer leaves in the target, field by field, what the source held when the plan was executed, the source's and the plan's ids noted over it, and nothing else; an absent source gives its id and the time. |
| PackMigration.FailsExactlyWhen | src/domains/business-pack/pack-migration-service.ts:464-495 | The next step of a plan fails if and only if it is the validation of a locked target or the verification of one without state, and then no pack changes. |
| PackMigration.ValidatesExactlyWhen | src/domains/business-pack/pack-migration-service.ts:160-209 | A plan becomes validated if and only if it is not yet executed and both packs have names. |
| PackMigration.RollbackNeverFails | src/domains/business-pack/pack-migration-service.ts:279-341 | A plan that is rolling back goes on until it is rolled back. |
| PackMigration.ExecutedAlone | src/domains/business-pack/pack-migration-service.ts:464-495 | Run alone, execution fails if and only if the target carries the lock flag; nothing but the target changes, and it ends with the fields of the source, the two provenance fields and no other. |
| PackMigration.RestoresExactlyWhen | src/domains/business-pack/pack-migration-service.ts:464-513 | Execute then rollback, alone, removes the target's state if the transfer ran; so it restores the store if and only if the target had no state or was locked. |
| PackMigrationObject.PackMigrationService.CreateMigrationPlan | src/domains/business-pack/pack-migration-service.ts:131-155 | Adds a planned plan unless source and target are the same pack. |
| PackMigrationObject.PackMigrationService.ValidateMigration | src/domains/business-pack/pack-migration-service.ts:160-209 | Marks a planned plan with two distinct named packs as validated. |
| PackMigrationObject.PackMigrationService.ExecuteMigration | src/domains/business-pack/pack-migration-service.ts:214-241 | Accepts exactly planned or validated plans and tries the first step. |
| PackMigrationObject.PackMigrationService.ExecuteStep | src/domains/business-pack/pack-migration-service.ts:420-438 | Notes the node, applies it to the shared store, and traces it unless it failed. |
| PackMigrationObject.PackMigrationService.RollbackMigration | src/domains/business-pack/pack-migration-service.ts:279-307 | Accepts exactly completed or failed plans and reverts the last tried step first. |
| PackMigrationObject.PackMigrationService.RollbackStep | src/domains/business-pack/pack-migration-service.ts:306-317 | Reverts and traces the next node, or marks the plan rolled back when none is left. |
| PackMigrationObject.PackMigrationService.ResumeCall | src/domains/business-pack/pack-migration-service.ts:238-274 | The next turn of a suspended call: the next step, completion, failure or the next revert. |
| PackMigrationObject.PackMigrationService.SeedPackState | src/domains/business-pack/pack-migration-service.ts:373-375 | Sets the state of one pack and touches no plan. |
| EvalFramework.StepKeeps | src/domains/domain-eval-framework-service.ts:119-375 | Every operation keeps all five maps within resident domains and all limits, and moves the touched domain to the recent end. |
| EvalFramework.RunIsLru | src/domains/domain-eval-framework-service.ts:119-375 | After any sequence of operations the recency order is exactly the last `maxDomains` distinct domains of the touch trace, in order of last touch, and the store is consistent. |
| EvalFramework.TouchIsRecent | src/domains/domain-eval-framework-service.ts:343-365 | Touching and evicting turns the last n distinct domains of a trace into those of the longer trace. |
| EvalFramework.RegistrationSurvives | src/domains/domain-eval-framework-service.ts:119-208 | What was just registered is present, and its domain resident and most recent, after the evictions it caused. |
| EvalFramework.OthersUntouched | src/domains/domain-eval-framework-service.ts:119-375 | An operation leaves the framework, axes, checks and rubrics of every other resident domain as they were. |
| EvalFramework.DatasetStaysExactlyWhen | src/domains/domain-eval-framework-service.ts:188-375 | A dataset of a domain that stays resident stays if and only if the operation does not register another under its id, nor one more than fits with the newer ones, nor rewrite its cases. |
| EvalFramework.NoForeignDataset | src/domains/domain-eval-framework-service.ts:188-375 | No operation adds a dataset to a domain it does not touch. |
| EvalFramework.DatasetOfResidentLost | src/domains/domain-eval-framework-service.ts:367-375 | It happens: with room for one dataset, registering one for a domain loses that of another, which stays resident. |
| EvalFrameworkLists.AxisList | src/domains/domain-eval-framework-service.ts:130-143 | Registering an axis replaces the first one of that id where it stands, or appends it, and keeps the newest within the limit. |
| EvalFrameworkLists.CheckList | src/domains/domain-eval-framework-service.ts:149-162 | The same for an automated check. |
| EvalFrameworkLists.RubricList | src/domains/domain-eval-framework-service.ts:168-174 | A rubric is always appended, and the newest within the limit are kept. |
| EvalFrameworkLists.ListsShowLatest | src/domains/domain-eval-framework-service.ts:130-162 | In every run each axis and each check of a domain has an id of its own and is the one registered last under it. |
| EvalFrameworkLists.NoSuchDataset | src/domains/domain-eval-framework-service.ts:306-341 | Adding or removing a case without the dataset changes nothing. |
| EvalFrameworkLists.CaseAdded | src/domains/domain-eval-framework-service.ts:306-320 | A case goes last into the dataset of that id, and no other dataset changes. |
| EvalFrameworkLists.CaseRemoved | src/domains/domain-eval-framework-service.ts:322-341 | The first case of that id goes and the others keep their order; without one nothing changes. |
| EvalFrameworkLists.TouchesItsDomain | src/domains/domain-eval-framework-service.ts:119-346 | The domain an operation names, or that owns the dataset it names, becomes the most recent. |
| EvalFrameworkLists.NewestDatasetLast | src/domains/domain-eval-framework-service.ts:188-194 | A dataset registered goes last, and the others that stay keep their order. |
| EvalFrameworkLists.OthersOnlyLoseDatasets | src/domains/domain-eval-framework-service.ts:348-365 | No other registration adds a dataset or changes their order. |
| EvalFrameworkObject.DomainEvalFrameworkService.TouchDomain | src/domains/domain-eval-framework-service.ts:343-346 | Moves the domain to the recent end. |
| EvalFrameworkObject.DomainEvalFrameworkService.EvictOldestDomainIfNeeded | src/domains/domain-eval-framework-service.ts:348-365 | The loop removes the oldest domains beyond the limit with all that belongs to them, and nothing else. |
| EvalFrameworkObject.DomainEvalFrameworkService.EvictOldestRegressionDatasetIfNeeded | src/domains/domain-eval-framework-service.ts:367-375 | The loop keeps exactly the newest datasets within the limit. |
| EvalFrameworkObject.DomainEvalFrameworkService.RegisterFramework | src/domains/domain-eval-framework-service.ts:119-124 | Stores the framework under its domain, touches the domain and evicts beyond the limit. |
| EvalFrameworkObject.DomainEvalFrameworkService.RegisterQualityAxis | src/domains/domain-eval-framework-service.ts:130-143 | Replaces the axis of that id or appends it, keeps the newest within the limit, touches and evicts. |
| EvalFrameworkObject.DomainEvalFrameworkService.RegisterAutomatedCheck | src/domains/domain-eval-framework-service.ts:149-162 | Replaces the check of that id or appends it, keeps the newest within the limit, touches and evicts. |
| EvalFrameworkObject.DomainEvalFrameworkService.RegisterHumanRubric | src/domains/domain-eval-framework-service.ts:168-174 | Appends the rubric, keeps the newest within the limit, touches and evicts. |
| EvalFrameworkObject.DomainEvalFrameworkService.RegisterRegressionDataset | src/domains/domain-eval-framework-service.ts:188-194 | Moves the dataset to the newest end, touches its domain and applies both evictions. |
| EvalFrameworkObject.DomainEvalFrameworkService.AddRegressionCase | src/domains/domain-eval-framework-service.ts:306-320 | Appends the case if and only if the dataset exists, and touches its domain. |
| EvalFrameworkObject.DomainEvalFrameworkService.RemoveRegressionCase | src/domains/domain-eval-framework-service.ts:322-341 | Removes the case if and only if dataset and case exist, and touches its domain. |
| DomainRegistry.ValidateWorkflow | src/domains/registry/domain-registry-service.ts:422-435 | The loop accepts a workflow exactly when its step names are unique and its dependencies are among them. |
| DomainRegistry.ValidateDefinition | src/domains/registry/domain-registry-service.ts:415-444 | Accepts exactly the well-formed definitions. |
| DomainRegistry.StepKeepsGate | src/domains/registry/domain-registry-service.ts:52-271 | Every operation keeps the smoke-test gate. |
| DomainRegistry.RunGated | src/domains/registry/domain-registry-service.ts:52-271 | In every run no stored domain is draft or validated, each is stored under its own id and unchanged but for its status, stays live if registered live, and is live without passing the smoke test if and only if it was so in the call that registered it. |
| DomainRegistry.SlipsThroughExactlyWhen | src/domains/registry/domain-registry-service.ts:52-271 | In every run a domain is active, updating, deprecated or archived without passing the smoke test if and only if some accepted call registered it in such a status with a failing definition. |
| DomainRegistry.CircularExactlyWhen | src/domains/registry/domain-smoke-test.ts:59-104 | For workflows that registration accepts and with step names distinct throughout, the gate reports a circular dependency if and only if some single workflow has one. |
| DomainRegistry.OrderedWorkflowsPass | src/domains/registry/domain-smoke-test.ts:59-104 | For the same workflows, the gate passes whenever every single workflow can be ordered with dependencies first. |
| DomainRegistry.MovesAlongTable | src/domains/registry/domain-registry-service.ts:52-271 | The allowed status moves of every call as a table over the status before, the smoke test, the skip flag and the live packs; no other domain changes, and a registration adds one, drafts and validated ones as registered. |
| DomainRegistry.EndOfLife | src/domains/registry/domain-registry-service.ts:213-271 | In every run an archived domain stays archived, and a deprecated one stays or is archived. |
| DomainRegistry.DotDotMeans | src/domains/registry/domain-registry-service.ts:440-440 | A tool name is refused for two dots wherever they stand in it. |
| DomainRegistry.OnlyStatusMoves | src/domains/registry/domain-registry-service.ts:91-271 | A lifecycle call changes the status of the domain it names and nothing else; registering changes no stored domain. |
| DomainRegistry.RegisteredLiveUnchecked | src/domains/registry/domain-registry-service.ts:52-84 | It happens: a domain without workflows can be registered as active. |
| DomainRegistry.DomainRegistryService.RegisterDomain | src/domains/registry/domain-registry-service.ts:52-84 | Stores exactly new, well-formed definitions with accepted plugins, normalising draft and validated to registered. |
| DomainRegistry.DomainRegistryService.PromoteToCanary | src/domains/registry/domain-registry-service.ts:91-123 | Only from registered, and through the smoke test unless skipped. |
| DomainRegistry.DomainRegistryService.ActivateDomain | src/domains/registry/domain-registry-service.ts:125-155 | Only from canary or registered, and only through the smoke test. |
| DomainRegistry.DomainRegistryService.BeginDomainUpdate | src/domains/registry/domain-registry-service.ts:157-179 | Only from active. |
| DomainRegistry.DomainRegistryService.CompleteDomainUpdate | src/domains/registry/domain-registry-service.ts:181-211 | Only from updating, and only through the smoke test. |
| DomainRegistry.DomainRegistryService.DeprecateDomain | src/domains/registry/domain-registry-service.ts:213-235 | Only from active. |
| DomainRegistry.DomainRegistryService.ArchiveDomain | src/domains/registry/domain-registry-service.ts:237-271 | Only from deprecated and without live packs. |
| Onboarding.PhaseIndex | src/domains/operations/index.ts:45-48 | Each phase has one place in the phase order. |
| Onboarding.AdvanceKeepsShape | src/domains/operations/domain-onboarding-service.ts:50-100 | Completing a phase keeps the records completed*, one open, pending*, or all four completed; every completed record has evidence. |
| Onboarding.BlockKeepsShape | src/domains/operations/domain-onboarding-service.ts:102-115 | Blocking keeps the shape and the active position. |
| Onboarding.RollbackShape | src/domains/operations/domain-onboarding-service.ts:117-149 | Rollback keeps the shape if and only if the target is not a later phase that already has a record; then it reopens exactly the target. |
| Onboarding.PhasesInOrder | src/domains/operations/index.ts:38-48 | The four phases follow one another in this order, and the last has no next. |
| Onboarding.StartMeans | src/domains/operations/domain-onboarding-service.ts:35-48 | Starting opens one session with the first phase in progress and no evidence. |
| Onboarding.BlockMeans | src/domains/operations/domain-onboarding-service.ts:102-115 | Blocking turns the first record in progress, and no other, into a blocked one whose evidence gains the reason; in a shaped session none is in progress then, and the next advance completes that record. |
| Onboarding.BlockRefused | src/domains/operations/domain-onboarding-service.ts:102-108 | Without a record in progress a block changes nothing. |
| Onboarding.AdvanceMeans | src/domains/operations/domain-onboarding-service.ts:50-100 | Advancing completes the open record with the new evidence after its own and opens the next phase; all other records stay. |
| Onboarding.RollbackMeans | src/domains/operations/domain-onboarding-service.ts:117-149 | Rolling back reopens the target with the checkpoint in its evidence, returns later phases to waiting, leaves earlier ones, and adds one point with the abandoned phase, the checkpoint and the reason to the history. |
| Onboarding.Refused | src/domains/operations/domain-onboarding-service.ts:35-149 | A call without domain, session, open record or evidence changes nothing, nor does starting again. |
| Basics.UniqueExtends | src/domains/operations/domain-onboarding-service.ts:64-64 | Evidence already listed keeps its place when evidence is merged. |
| Basics.UniqueGrows | src/domains/operations/domain-onboarding-service.ts:64-64 | Merged evidence lists first occurrences in order. |
| Onboarding.StepKeepsShape | src/domains/operations/domain-onboarding-service.ts:35-149 | Every operation of both services whose rollback goes backward keeps the shape of every session. |
| Onboarding.RunShaped | src/domains/operations/domain-onboarding-service.ts:35-149 | In every run whose rollbacks never aim past the active phase at an existing record, every session has the shape. |
| Onboarding.EvidenceNeverShrinks | src/domains/operations/domain-onboarding-service.ts:35-149 | From any point of any run to its end, each session only gains records, and each record only gains evidence at its end. |
| Onboarding.RunTidy | src/domains/operations/domain-onboarding-service.ts:35-149 | In every run at all, whatever its rollbacks, the records of a session are the first phases in order without repeated evidence, and every completed record has evidence. |
| Onboarding.ShapeCanBeLost | src/domains/operations/domain-onboarding-service.ts:115-149 | The failing side of the rollback condition is reachable for every registrable domain: two phases end up in progress at once. |
| Onboarding.SlipsThroughTogether | src/domains/operations/domain-onboarding-service.ts:50-100 | In every run of both services a domain is past the gate without passing the smoke test if and only if some call registered it so; onboarding never lets one through. |
| Onboarding.NeverReRegisters | src/domains/operations/domain-onboarding-service.ts:185-196 | In every run at all no stored domain is a draft, so the branch that registers a draft again is never taken. |
| Onboarding.LastPhaseActivates | src/domains/operations/domain-onboarding-service.ts:68-77 | Completing the last phase completes the session, and makes the domain active if and only if it was active or a registered or canary domain that passes the smoke test. |
| Onboarding.GateHoldsTogether | src/domains/operations/domain-onboarding-service.ts:69-77 | Onboarding changes domains only through registry operations, so the smoke-test gate holds of both services together in every run. |
| Onboarding.DomainOnboardingService.StartOnboarding | src/domains/operations/domain-onboarding-service.ts:35-48 | Opens a session once, for stored domains only. |
| Onboarding.DomainOnboardingService.AdvancePhase | src/domains/operations/domain-onboarding-service.ts:50-100 | Completes the current phase, opens the next or concludes; succeeds exactly when accepted and, after the last phase, the domain is active. |
| Onboarding.DomainOnboardingService.ConcludeOnboarding | src/domains/operations/domain-onboarding-service.ts:69-77 | Promotes and activates as the code orders it; succeeds exactly when the domain ends active. |
| Onboarding.DomainOnboardingService.BlockPhase | src/domains/operations/domain-onboarding-service.ts:102-115 | Blocks the phase in progress with its reason as evidence; refused exactly without a phase in progress. |
| Onboarding.DomainOnboardingService.RollbackPhase | src/domains/operations/domain-onboarding-service.ts:117-149 | Reopens the target, returns later phases to pending and appends the abandoned phase to the history; refused exactly without a current phase. |
| PackAssociation.StepConsistentExactlyWhen | src/domains/business-pack/pack-domain-association.ts:76-178 | From a consistent index an operation leads to a consistent one if and only if it does not move a pack out of the domain with the empty name. |
| PackAssociation.RunConsistent | src/domains/business-pack/pack-domain-association.ts:76-178 | In every run with non-empty domain ids the two maps are exact inverses, no domain has an empty pack set, and every domain with packs has exactly one primary, drawn from its own packs. |
| PackAssociation.RunShowsLinks | src/domains/business-pack/pack-domain-association.ts:76-178 | In such a run the maps show one plain list of links: each pack's domain, and each domain's packs in the order they joined. |
| PackAssociation.RunPrimary | src/domains/business-pack/pack-domain-association.ts:76-178 | In such a run the primary of each domain is the last pack asked for or set while it is listed, else the first that joined or remains. |
| PackAssociation.UnnamedDomainBreaksIndex | src/domains/business-pack/pack-domain-association.ts:80-85 | Two calls with an empty domain name leave a pack listed in a domain that is not its own. |
| PackAssociation.PackDomainAssociationService.AssociatePackWithDomain | src/domains/business-pack/pack-domain-association.ts:76-97 | Moves the pack to the domain, making it primary if asked or if the domain has none; a rejected call changes nothing. |
| PackAssociation.PackDomainAssociationService.DissociatePackFromDomain | src/domains/business-pack/pack-domain-association.ts:102-130 | Removes the pack, its empty domain, and hands the primary role to the first remaining pack. |
| PackAssociation.PackDomainAssociationService.SetPrimaryPack | src/domains/business-pack/pack-domain-association.ts:169-178 | Accepted exactly for a pack of the domain; otherwise nothing changes. |
| CorrelationHash.TurnIsExact | src/sdk/fixture-redact.ts:98-102 | One turn of the loop stays below 2^53 and multiplies by 31 modulo 2^32. |
| CorrelationHash.ComputeCorrelationHash | src/sdk/fixture-redact.ts:95-104 | The loop's hash is the signed 32-bit representative of the base-31 polynomial of the code units; the text has exactly 13 characters. |
| CorrelationHash.PrintedReads | src/sdk/fixture-redact.ts:103-103 | The text is `corr_` and eight hexadecimal digits that read back as the hash without its sign. |
| CorrelationHash.CorrelatesExactlyWhen | src/sdk/fixture-redact.ts:95-104 | Two strings get the same text if and only if their polynomials agree modulo 2^32 up to sign. |
| FixtureRedactor.SensitiveLeftExactlyWhen | src/sdk/fixture-redact.ts:106-164 | The result holds a sensitive string if and only if something was redacted and the replacement text itself is sensitive; with a harmless replacement, never. |
| FixtureRedactor.RedactedIsClean | src/sdk/fixture-redact.ts:106-164 | At every depth of a result each always-redacted field and each string that still matches is the replacement text. |
| FixtureRedactor.UnchangedExactlyWhenClean | src/sdk/fixture-redact.ts:106-164 | Redaction leaves a tree alone if and only if its always-redacted fields and its matching strings are the replacement text already. |
| FixtureRedactor.RedactionIsIdempotent | src/sdk/fixture-redact.ts:106-164 | Redacting twice is redacting once, for every tree and all options. |
| FixtureRedactor.PlaceByPlace | src/sdk/fixture-redact.ts:106-164 | Outside always-redacted fields the result has the same containers, keys and non-matching leaves at the same places, and the replacement at each sensitive string. |
| FixtureRedactor.AlwaysFieldReplaced | src/sdk/fixture-redact.ts:128-134 | An always-redacted field becomes the replacement whatever it held. |
| FixtureRedactor.ReportIsSound | src/sdk/fixture-redact.ts:65-70 | The report is empty if and only if nothing was redacted; hashes appear only when asked for, only under reported paths, with 13 characters. |
| RedactionReport.EntriesArePlaces | src/sdk/fixture-redact.ts:106-164 | The entries of the report are exactly the path texts of the redacted places. |
| RedactionReport.PlainPlacesApart | src/sdk/fixture-redact.ts:116-138 | With distinct non-empty keys free of dots and brackets, two redacted places share an entry if and only if they are the same place. |
| RedactionReport.DottedKeyCollides | src/sdk/fixture-redact.ts:127-127 | Without plain keys they can: a key that holds a dot is reported like a nested field. |
| RedactionReport.ReportDescribesPlaces | src/sdk/fixture-redact.ts:106-164 | With plain keys the entry at each redacted place names the first secret pattern, or else the first pattern of personal data, that the string found there matches, and its hash is that of the string. |
| FixtureRedactor.RedactValue | src/sdk/fixture-redact.ts:106-142 | The recursive rewriting computes the specified tree and writes exactly the specified records, in order. |
| FixtureRedactor.RedactItems | src/sdk/fixture-redact.ts:116-122 | The array loop yields the item-wise redaction and the records of all items in order, under indexed paths. |
| FixtureRedactor.RedactFields | src/sdk/fixture-redact.ts:123-140 | The object loop keeps keys and order, redacts each value, and leaves the records of all entries in order. |
| FixtureRedactor.RedactField | src/sdk/fixture-redact.ts:126-138 | One entry becomes the replacement or its redaction; its record is filed under the dotted path, hashed only if the value was a string. |
| FixtureRedactor.RedactString | src/sdk/fixture-redact.ts:144-164 | Secrets are tried before personal data; a match is replaced and recorded. |
| FixtureRedactor.LooksLike | src/sdk/fixture-redact.ts:77-93 | The first matching pattern, or none when no pattern matches. |
| FixtureRedactor.Redact | src/sdk/fixture-redact.ts:65-70 | Fresh maps, the redacted tree and the full report. |
| PromptGovernance.StepKeepsGoverned | src/domains/prompt-library/domain-prompt-governance-service.ts:67-148 | Every operation keeps the gate on every release and on the active map. |
| PromptGovernance.ActiveReleaseIsGated | src/domains/prompt-library/domain-prompt-governance-service.ts:67-157 | In every run `getActiveRelease(p)` is none or a release of p that is active, not off, with lint and eval evidence, and a non-blank ticket when review is required. |
| PromptGovernance.StatusMovesForward | src/domains/prompt-library/domain-prompt-governance-service.ts:101-148 | From any point of a run to its end a release changes only its status, and only forward from approved to active to rolled back. |
| PromptGovernance.EveryReleaseWasProposed | src/domains/prompt-library/domain-prompt-governance-service.ts:67-99 | Every release stems from an accepted proposal: it carries the version of the first prompt of its id, its library and draft, and requires review if and only if that prompt has guardrails, in which case the draft has a ticket that is not blank. |
| PromptGovernance.StatusIsHistory | src/domains/prompt-library/domain-prompt-governance-service.ts:67-148 | In every run a release is rolled back if and only if some call rolled it back, active if and only if some call activated it and none rolled it back, and approved until then. |
| PromptGovernance.ProposalGoesThroughExactlyWhen | src/domains/prompt-library/domain-prompt-governance-service.ts:67-78 | Exactly for a known prompt with both kinds of evidence and, if it has guardrails, a ticket that is not blank. |
| PromptGovernance.ActivationGoesThroughExactlyWhen | src/domains/prompt-library/domain-prompt-governance-service.ts:101-126 | Exactly for an approved release that is not off, which then is the active one of its prompt. |
| PromptGovernance.RollbackGoesThroughExactlyWhen | src/domains/prompt-library/domain-prompt-governance-service.ts:128-137 | Exactly for a known release whose target version, given or its own, the library holds for its prompt. |
| PromptGovernance.ActiveIsLastActivated | src/domains/prompt-library/domain-prompt-governance-service.ts:101-157 | The active release of a prompt is the one activated last, unless that one was rolled back; an earlier one never becomes active again by itself. |
| PromptGovernance.DomainPromptGovernanceService.ProposeRelease | src/domains/prompt-library/domain-prompt-governance-service.ts:67-99 | Accepted exactly with a known prompt, both kinds of evidence and a ticket where required. |
| PromptGovernance.DomainPromptGovernanceService.ActivateRelease | src/domains/prompt-library/domain-prompt-governance-service.ts:101-126 | Only an approved release that is not off. |
| PromptGovernance.DomainPromptGovernanceService.RollbackRelease | src/domains/prompt-library/domain-prompt-governance-service.ts:128-148 | Needs a target version present in the library; clears the active entry only if it is this release. |

## Left out

- Text is a sequence of characters; one character stands for one UTF-16 code unit, and surrogate pairs are not split.
- YAML numbers: integers are unbounded; rounding beyond 2^53, negative zero and non-integer numerals are not modelled.
- YAML keys: the order JavaScript gives integer-like keys and the special key `__proto__` are not modelled; the source path in error texts is dropped.
- Division loader: reading files, sandbox checks, roles, divisions and the cross-division flag; `WorkflowConnectivity` takes one workflow after those checks.
- Plugin runtime: spawning processes, launch arguments, sandbox paths, guards, the process tracker, the kill timer of `stop` and the `onReady` callback; timers fire exactly when due.
- RuntimeHostObject.PluginRuntimeHost.ResumeInvoke: a send succeeds or calls back with an error; a send that throws at once, as on a cyclic input, would reject the promise while its id and timer stay in the pending map until the timer fires, and is not modelled.
- LineFraming.HostOutput.OnData: message parsing is a predicate on lines, and the stream is that of one child; when `start` replaces a killed child before its exit, the listeners of both stay attached and both feed one buffer, which is not modelled.
- Pack migration: plan ids are distinct and generated; the listing and query methods, timestamps and messages of results.
- Evaluation store: `assessQuality` and its floating-point averages, `getLatestRubric`, and aliasing of returned lists; `createRegressionDataset` is `RegisterRegressionDataset` with a fresh id.
- Smoke test: the texts of the checks and the rollback points; the quota, sandbox and profile checks are predicates.
- Domain registry: schema parsing, plugin binding checks (one boolean input), namespaces, capability entries, events and lookups.
- Onboarding: phase aliases, timestamps and the listing methods.
- Pack association: the resolvers and the manifest comparison are one boolean input; the listing methods.
- Fixture redactor: patterns are predicates without state, lower-casing and code units are functions; fields have distinct keys in enumeration order, and the key `__proto__` and values other than JSON and undefined are not modelled.
- Prompt governance: timestamps, owner and rollout scope; release ids are fresh.
- Version bumping in the recipe and pack registries, the pack lifecycle table, HR role governance, catalogs, presets, orchestrators and the UI: constants, wiring or easy tables.
