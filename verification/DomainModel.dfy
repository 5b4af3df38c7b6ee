/** The parts of a domain definition that registration, the smoke test and onboarding look at. */
module DomainModel {

  datatype StepTemplate = StepTemplate(stepName: string, dependsOn: seq<string>)

  datatype Workflow = Workflow(workflowId: string, steps: seq<StepTemplate>)

  datatype ToolBundle = ToolBundle(tools: seq<string>)

  datatype SecurityLevel = Standard | Elevated | Restricted

  datatype Capabilities = Capabilities(
    requiredTools: seq<string>, securityLevel: SecurityLevel, maxTokensPerTask: int, maxCostPerTask: real)

  datatype ExecutionProfile = ExecutionProfile(
    deterministicHotPath: bool, llmInHotPathAllowed: bool,
    deterministicPlanning: bool, hasCompiledArtifact: bool,
    realtime: bool, maxHotPathLatencyMs: int)

  datatype Status = Draft | Validated | Registered | Canary | Active | Updating | Deprecated | Archived

  datatype Definition = Definition(
    domainId: string, status: Status, workflows: seq<Workflow>, toolBundles: seq<ToolBundle>,
    capabilities: Capabilities, executionProfile: ExecutionProfile)
}
