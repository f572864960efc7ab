/**
 What `validateLoadedModules` refuses, said of the fields of the modules: one fault for each error
 it throws, and the ids that may not be declared twice (scripts/agent-pack-compiler.ts, lines
 162-432).
 */
module PackRules {
  import opened Text
  import opened Order
  import opened PackCompiler
  import opened PackProperties

  // ----- the pack and its runtimes

  datatype PackFault =
    | NotPackV2 | MalformedMinimum | MalformedMaximum | InvertedRange | IncompatibleWorkbench
    | ForeignPackage | OtherVersion
    | ForeignRuntime(r: Runtime) | OtherRuntime(r: Runtime) | IncompatibleRuntime(r: Runtime)

  ghost predicate IsRuntime(m: Module, r: Runtime) {
    r == m.controlPlane || r == m.runner || r == m.web
  }

  ghost predicate PackFaulty(sdk: Sdk, workbench: string, m: Module, fault: PackFault) {
    match fault
    case NotPackV2 => m.manifest.apiVersion != 2 || m.manifest.kind != "agent_pack"
    case MalformedMinimum => !sdk.parses(m.manifest.minimum)
    case MalformedMaximum => m.manifest.maximum != "" && !sdk.parses(m.manifest.maximum)
    case InvertedRange => m.manifest.maximum != "" && sdk.inverted(m.manifest.minimum, m.manifest.maximum)
    case IncompatibleWorkbench => !sdk.workbenchFits(workbench, m.manifest.minimum, m.manifest.maximum)
    case ForeignPackage => m.packageName != m.package
    case OtherVersion => m.packageVersion != m.manifest.version
    case ForeignRuntime(r) => IsRuntime(m, r) && (r.apiVersion != 1 || r.packId != m.manifest.id)
    case OtherRuntime(r) =>
      && IsRuntime(m, r)
      && (r.runtimeVersion != m.controlPlane.runtimeVersion || r.compatiblePackVersions != m.controlPlane.compatiblePackVersions)
    case IncompatibleRuntime(r) => IsRuntime(m, r) && !sdk.packFits(m.manifest.version, r.compatiblePackVersions)
  }

  lemma VersionFaults(sdk: Sdk, workbench: string, m: Module, fault: PackFault)
    requires PackFaulty(sdk, workbench, m, fault)
    ensures !PartOk(PackId, sdk, workbench, m)
  {
  }

  lemma RuntimeSound(sdk: Sdk, workbench: string, m: Module, r: Runtime)
    requires IsRuntime(m, r) && forall fault :: !PackFaulty(sdk, workbench, m, fault)
    ensures RuntimeOk(sdk, m, r)
  {
    assert !PackFaulty(sdk, workbench, m, ForeignRuntime(r));
    assert !PackFaulty(sdk, workbench, m, OtherRuntime(r));
    assert !PackFaulty(sdk, workbench, m, IncompatibleRuntime(r));
  }

  lemma VersionsSound(sdk: Sdk, workbench: string, m: Module)
    requires forall fault :: !PackFaulty(sdk, workbench, m, fault)
    ensures VersionsOk(sdk, workbench, m)
  {
    assert !PackFaulty(sdk, workbench, m, NotPackV2);
    assert !PackFaulty(sdk, workbench, m, MalformedMinimum);
    assert !PackFaulty(sdk, workbench, m, MalformedMaximum);
    assert !PackFaulty(sdk, workbench, m, InvertedRange);
    assert !PackFaulty(sdk, workbench, m, IncompatibleWorkbench);
    assert !PackFaulty(sdk, workbench, m, ForeignPackage);
    assert !PackFaulty(sdk, workbench, m, OtherVersion);
  }

  lemma PackSoundIff(sdk: Sdk, workbench: string, m: Module)
    ensures PartOk(PackId, sdk, workbench, m) <==> forall fault :: !PackFaulty(sdk, workbench, m, fault)
  {
    if fault :| PackFaulty(sdk, workbench, m, fault) {
      VersionFaults(sdk, workbench, m, fault);
    } else {
      VersionsSound(sdk, workbench, m);
      RuntimeSound(sdk, workbench, m, m.controlPlane);
      RuntimeSound(sdk, workbench, m, m.runner);
      RuntimeSound(sdk, workbench, m, m.web);
    }
  }

  // ----- the tools

  datatype ToolFault =
    | BadSchema | NoMode | UnknownMode(mode: string) | NoMutationGate | NoAction
    | BadActionSchema | NoIdempotency | ActionTooLong | ApprovalMismatch | UndeclaredConnection
    | MissingRunner | RunnerDiffers(j: nat) | InlineRunner(j: nat)

  /** The first connection with the id that binds the tool is at `j`, and carries a credential. */
  ghost predicate Connects(connections: seq<Connection>, id: string, toolId: string, j: nat) {
    && j < |connections| && connections[j].id == id && toolId in connections[j].toolIds
    && connections[j].credentialClass != "none"
    && forall k :: 0 <= k < j ==> connections[k].id != id || toolId !in connections[k].toolIds
  }

  ghost predicate ActionFaulty(sdk: Sdk, m: Module, t: Tool, a: Action, fault: ToolFault) {
    match fault
    case BadActionSchema => !sdk.schemaDefined(a.proposalSchema) || !sdk.schemaDefined(a.resultSchema)
    case NoIdempotency => a.idempotency != "required"
    case ActionTooLong => a.timeoutMs.None? || a.timeoutMs.value < 1 || a.timeoutMs.value > t.timeoutMs
    case ApprovalMismatch => a.approval == "required" && !t.policy.requiresApproval
    case UndeclaredConnection =>
      a.connectionId != "" && forall j :: !Connects(m.manifest.connections, a.connectionId, t.id, j)
    case _ => false
  }

  /** The last runner tool with the id of this one is at `j`. */
  ghost predicate Runs(m: Module, t: Tool, j: nat) {
    && j < |m.runnerTools| && m.runnerTools[j].id == t.id
    && forall k :: j < k < |m.runnerTools| ==> m.runnerTools[k].id != t.id
  }

  /** Their contracts, written out, are the same. */
  ghost predicate AlikeWritten(sdk: Sdk, t: Tool, r: Tool) {
    sdk.write(Contract(t.id, t.description, t.inputSchema, t.outputSchema, t.executionModes, t.transport, t.adapterVersion,
                       t.timeoutMs, t.maxArtifactBytes, t.sandbox, t.policy, t.action))
    == sdk.write(Contract(r.id, r.description, r.inputSchema, r.outputSchema, r.executionModes, r.transport, r.adapterVersion,
                          r.timeoutMs, r.maxArtifactBytes, r.sandbox, r.policy, r.action))
  }

  ghost predicate TransportFaulty(sdk: Sdk, m: Module, t: Tool, fault: ToolFault) {
    match fault
    case MissingRunner => t.transport == "fly" && forall j :: 0 <= j < |m.runnerTools| ==> m.runnerTools[j].id != t.id
    case RunnerDiffers(j) => t.transport == "fly" && Runs(m, t, j) && !AlikeWritten(sdk, t, m.runnerTools[j])
    case InlineRunner(j) => t.transport != "fly" && j < |m.runnerTools| && m.runnerTools[j].id == t.id
    case _ => false
  }

  ghost predicate ToolFaulty(sdk: Sdk, m: Module, t: Tool, fault: ToolFault) {
    match fault
    case BadSchema => !sdk.schemaDefined(t.inputSchema) || !sdk.schemaDefined(t.outputSchema)
    case NoMode => t.executionModes == []
    case UnknownMode(mode) => mode in t.executionModes && mode != "ask" && mode != "dry_run" && mode != "execute"
    case NoMutationGate =>
      "execute" in t.executionModes && (!m.manifest.externalMutation || m.manifest.productionGate == "none")
    case NoAction => "execute" in t.executionModes && t.action.None?
    case _ =>
      || (t.action.Some? && ActionFaulty(sdk, m, t, t.action.value, fault))
      || TransportFaulty(sdk, m, t, fault)
  }

  lemma FirstConnection(connections: seq<Connection>, id: string, toolId: string, n: nat) returns (j: nat)
    requires n < |connections| && connections[n].id == id && toolId in connections[n].toolIds
    ensures j <= n && connections[j].id == id && toolId in connections[j].toolIds
    ensures forall k :: 0 <= k < j ==> connections[k].id != id || toolId !in connections[k].toolIds
  {
    j := 0;
    while connections[j].id != id || toolId !in connections[j].toolIds
      invariant j <= n
      invariant forall k :: 0 <= k < j ==> connections[k].id != id || toolId !in connections[k].toolIds
      decreases n - j
    {
      j := j + 1;
    }
  }

  lemma ConnectedIff(connections: seq<Connection>, id: string, toolId: string)
    ensures var c := FindConnection(connections, id, toolId);
      (c.Some? && c.value.credentialClass != "none") <==> exists j :: Connects(connections, id, toolId, j)
  {
    var c := FindConnection(connections, id, toolId);
    if j: nat :| Connects(connections, id, toolId, j) { FindsFirstConnection(connections, id, toolId, j); }
    if c.Some? && c.value.credentialClass != "none" {
      var n :| 0 <= n < |connections| && connections[n].id == id && toolId in connections[n].toolIds;
      var j := FirstConnection(connections, id, toolId, n);
      FindsFirstConnection(connections, id, toolId, j);
      assert Connects(connections, id, toolId, j);
    }
  }

  lemma ActionSoundIff(sdk: Sdk, m: Module, t: Tool, a: Action)
    ensures ActionOk(sdk, m, t, a) <==> forall fault :: !ActionFaulty(sdk, m, t, a, fault)
  {
    ConnectedIff(m.manifest.connections, a.connectionId, t.id);
    if forall fault :: !ActionFaulty(sdk, m, t, a, fault) {
      assert !ActionFaulty(sdk, m, t, a, BadActionSchema);
      assert !ActionFaulty(sdk, m, t, a, NoIdempotency);
      assert !ActionFaulty(sdk, m, t, a, ActionTooLong);
      assert !ActionFaulty(sdk, m, t, a, ApprovalMismatch);
      assert !ActionFaulty(sdk, m, t, a, UndeclaredConnection);
    }
  }

  lemma LastTool(tools: seq<Tool>, id: string, n: nat) returns (j: nat)
    requires n < |tools| && tools[n].id == id
    ensures n <= j < |tools| && tools[j].id == id && forall k :: j < k < |tools| ==> tools[k].id != id
  {
    j := |tools| - 1;
    while tools[j].id != id
      invariant n <= j < |tools|
      invariant forall k :: j < k < |tools| ==> tools[k].id != id
      decreases j
    {
      j := j - 1;
    }
  }

  lemma TransportFaults(sdk: Sdk, m: Module, t: Tool, fault: ToolFault)
    requires TransportFaulty(sdk, m, t, fault)
    ensures !TransportOk(sdk, m, t)
  {
    match fault
    case RunnerDiffers(j) => FindsLastTool(m.runnerTools, t.id, j);
    case _ =>
  }

  lemma TransportSound(sdk: Sdk, m: Module, t: Tool)
    requires forall fault :: !TransportFaulty(sdk, m, t, fault)
    ensures TransportOk(sdk, m, t)
  {
    if n: nat :| n < |m.runnerTools| && m.runnerTools[n].id == t.id {
      var j := LastTool(m.runnerTools, t.id, n);
      FindsLastTool(m.runnerTools, t.id, j);
      assert !TransportFaulty(sdk, m, t, RunnerDiffers(j));
      assert !TransportFaulty(sdk, m, t, InlineRunner(j));
    } else {
      assert !TransportFaulty(sdk, m, t, MissingRunner);
    }
  }

  lemma ToolFaults(sdk: Sdk, m: Module, t: Tool, fault: ToolFault)
    requires ToolFaulty(sdk, m, t, fault)
    ensures !ToolOk(sdk, m, t)
  {
    if t.action.Some? { ActionSoundIff(sdk, m, t, t.action.value); }
    if TransportFaulty(sdk, m, t, fault) { TransportFaults(sdk, m, t, fault); }
  }

  lemma PartSound(sdk: Sdk, m: Module, t: Tool)
    requires forall fault :: !ToolFaulty(sdk, m, t, fault)
    ensures t.action.Some? ==> ActionOk(sdk, m, t, t.action.value)
    ensures TransportOk(sdk, m, t)
  {
    if t.action.Some? {
      forall fault ensures !ActionFaulty(sdk, m, t, t.action.value, fault) { assert !ToolFaulty(sdk, m, t, fault); }
      ActionSoundIff(sdk, m, t, t.action.value);
    }
    forall fault ensures !TransportFaulty(sdk, m, t, fault) { assert !ToolFaulty(sdk, m, t, fault); }
    TransportSound(sdk, m, t);
  }

  lemma ToolSoundIff(sdk: Sdk, m: Module, t: Tool)
    ensures ToolOk(sdk, m, t) <==> forall fault :: !ToolFaulty(sdk, m, t, fault)
  {
    if fault :| ToolFaulty(sdk, m, t, fault) {
      ToolFaults(sdk, m, t, fault);
    } else {
      PartSound(sdk, m, t);
      assert !ToolFaulty(sdk, m, t, BadSchema);
      assert !ToolFaulty(sdk, m, t, NoMode);
      assert !ToolFaulty(sdk, m, t, NoMutationGate);
      assert !ToolFaulty(sdk, m, t, NoAction);
      forall mode | mode in t.executionModes ensures mode in ["ask", "dry_run", "execute"] {
        assert !ToolFaulty(sdk, m, t, UnknownMode(mode));
      }
    }
  }

  datatype ProviderFault =
    | DuplicateTool(i: nat, j: nat) | DuplicateRunnerTool(i: nat, j: nat) | ToolAt(i: nat, fault: ToolFault)
    | StrayRunnerTool(j: nat) | NotExecutable(j: nat) | MissingProvider(k: nat)

  ghost predicate Provides(m: Module, id: string) {
    exists i :: 0 <= i < |m.tools| && m.tools[i].id == id
  }

  ghost predicate ProviderFaulty(sdk: Sdk, m: Module, fault: ProviderFault) {
    match fault
    case DuplicateTool(i, j) => i < j < |m.tools| && m.tools[i].id == m.tools[j].id
    case DuplicateRunnerTool(i, j) => i < j < |m.runnerTools| && m.runnerTools[i].id == m.runnerTools[j].id
    case ToolAt(i, f) => i < |m.tools| && ToolFaulty(sdk, m, m.tools[i], f)
    case StrayRunnerTool(j) => j < |m.runnerTools| && !Provides(m, m.runnerTools[j].id)
    case NotExecutable(j) => j < |m.runnerTools| && !m.runnerTools[j].executable
    case MissingProvider(k) => k < |m.manifest.tools| && !Provides(m, m.manifest.tools[k])
  }

  lemma ProvidesIff(m: Module, id: string)
    ensures Provides(m, id) <==> id in Ids(m.tools)
  {
    if id in Ids(m.tools) {
      var i :| 0 <= i < |m.tools| && Ids(m.tools)[i] == id;
      assert m.tools[i].id == id;
    }
    if i :| 0 <= i < |m.tools| && m.tools[i].id == id { assert Ids(m.tools)[i] == id; }
  }

  lemma DistinctIdsIff(tools: seq<Tool>)
    ensures Distinct(Ids(tools)) <==> forall i, j :: 0 <= i < j < |tools| ==> tools[i].id != tools[j].id
  {
    if Distinct(Ids(tools)) {
      forall i, j | 0 <= i < j < |tools| ensures tools[i].id != tools[j].id {
        assert Ids(tools)[i] != Ids(tools)[j];
      }
    }
  }

  lemma ProviderFaults(sdk: Sdk, workbench: string, m: Module, fault: ProviderFault)
    requires ProviderFaulty(sdk, m, fault)
    ensures !PartOk(ToolId, sdk, workbench, m)
  {
    match fault
    case DuplicateTool(_, _) => DistinctIdsIff(m.tools);
    case DuplicateRunnerTool(_, _) => DistinctIdsIff(m.runnerTools);
    case ToolAt(i, f) => ToolSoundIff(sdk, m, m.tools[i]); assert m.tools[i] in m.tools;
    case StrayRunnerTool(j) => ProvidesIff(m, m.runnerTools[j].id);
    case NotExecutable(j) => assert m.runnerTools[j] in m.runnerTools;
    case MissingProvider(k) => ProvidesIff(m, m.manifest.tools[k]);
  }

  lemma ToolsDistinct(sdk: Sdk, m: Module)
    requires forall fault :: !ProviderFaulty(sdk, m, fault)
    ensures Distinct(Ids(m.tools)) && Distinct(Ids(m.runnerTools))
  {
    forall i: nat, j: nat | i < j < |m.tools| ensures m.tools[i].id != m.tools[j].id {
      assert !ProviderFaulty(sdk, m, DuplicateTool(i, j));
    }
    forall i: nat, j: nat | i < j < |m.runnerTools| ensures m.runnerTools[i].id != m.runnerTools[j].id {
      assert !ProviderFaulty(sdk, m, DuplicateRunnerTool(i, j));
    }
    DistinctIdsIff(m.tools);
    DistinctIdsIff(m.runnerTools);
  }

  lemma EachToolSound(sdk: Sdk, m: Module, i: nat)
    requires i < |m.tools| && forall fault :: !ProviderFaulty(sdk, m, fault)
    ensures ToolOk(sdk, m, m.tools[i])
  {
    forall f ensures !ToolFaulty(sdk, m, m.tools[i], f) { assert !ProviderFaulty(sdk, m, ToolAt(i, f)); }
    ToolSoundIff(sdk, m, m.tools[i]);
  }

  lemma EachRunnerSound(sdk: Sdk, m: Module, j: nat)
    requires j < |m.runnerTools| && forall fault :: !ProviderFaulty(sdk, m, fault)
    ensures m.runnerTools[j].id in Ids(m.tools) && m.runnerTools[j].executable
  {
    assert !ProviderFaulty(sdk, m, StrayRunnerTool(j));
    assert !ProviderFaulty(sdk, m, NotExecutable(j));
    ProvidesIff(m, m.runnerTools[j].id);
  }

  lemma EachProvided(sdk: Sdk, m: Module, k: nat)
    requires k < |m.manifest.tools| && forall fault :: !ProviderFaulty(sdk, m, fault)
    ensures m.manifest.tools[k] in Ids(m.tools)
  {
    assert !ProviderFaulty(sdk, m, MissingProvider(k));
    ProvidesIff(m, m.manifest.tools[k]);
  }

  lemma ProvidersSoundIff(sdk: Sdk, workbench: string, m: Module)
    ensures PartOk(ToolId, sdk, workbench, m) <==> forall fault :: !ProviderFaulty(sdk, m, fault)
  {
    if fault :| ProviderFaulty(sdk, m, fault) {
      ProviderFaults(sdk, workbench, m, fault);
    } else {
      ToolsDistinct(sdk, m);
      forall t | t in m.tools ensures ToolOk(sdk, m, t) {
        var i :| 0 <= i < |m.tools| && m.tools[i] == t;
        EachToolSound(sdk, m, i);
      }
      forall r | r in m.runnerTools ensures r.id in Ids(m.tools) && r.executable {
        var j :| 0 <= j < |m.runnerTools| && m.runnerTools[j] == r;
        EachRunnerSound(sdk, m, j);
      }
      forall id | id in m.manifest.tools ensures id in Ids(m.tools) {
        var k :| 0 <= k < |m.manifest.tools| && m.manifest.tools[k] == id;
        EachProvided(sdk, m, k);
      }
    }
  }

  // ----- the workflows

  datatype WorkflowFault =
    | MissingBinding | OtherEngine(j: nat) | BadBindingSchema(j: nat) | MissingInput(j: nat, name: string)
    | NonConforming(j: nat) | MissingTool(j: nat, id: string)

  /** The last binding for the workflow is at `j`. */
  ghost predicate Binds(m: Module, d: Declared, j: nat) {
    && j < |m.bindings| && m.bindings[j].kind == d.kind
    && forall k :: j < k < |m.bindings| ==> m.bindings[k].kind != d.kind
  }

  ghost predicate WorkflowFaulty(sdk: Sdk, m: Module, d: Declared, fault: WorkflowFault) {
    match fault
    case MissingBinding => forall j :: 0 <= j < |m.bindings| ==> m.bindings[j].kind != d.kind
    case OtherEngine(j) => Binds(m, d, j) && m.bindings[j].engine != d.engine
    case BadBindingSchema(j) =>
      Binds(m, d, j) && (!sdk.schemaDefined(m.bindings[j].inputSchema) || !sdk.schemaDefined(m.bindings[j].outputSchema))
    case MissingInput(j, name) =>
      Binds(m, d, j) && name in m.bindings[j].required && name !in m.bindings[j].defaulted && name !in m.bindings[j].given
    case NonConforming(j) => Binds(m, d, j) && !sdk.conforms(m.bindings[j])
    case MissingTool(j, id) => Binds(m, d, j) && id in m.bindings[j].toolIds && !Provides(m, id)
  }

  lemma LastBinding(bindings: seq<Binding>, kind: string, n: nat) returns (j: nat)
    requires n < |bindings| && bindings[n].kind == kind
    ensures n <= j < |bindings| && bindings[j].kind == kind && forall k :: j < k < |bindings| ==> bindings[k].kind != kind
  {
    j := |bindings| - 1;
    while bindings[j].kind != kind
      invariant n <= j < |bindings|
      invariant forall k :: j < k < |bindings| ==> bindings[k].kind != kind
      decreases j
    {
      j := j - 1;
    }
  }

  lemma WorkflowFaults(sdk: Sdk, m: Module, d: Declared, fault: WorkflowFault)
    requires WorkflowFaulty(sdk, m, d, fault)
    ensures !WorkflowOk(sdk, m, d)
  {
    if !fault.MissingBinding? { FindsLastBinding(m.bindings, d.kind, fault.j); }
    if fault.MissingTool? { ProvidesIff(m, fault.id); }
  }

  lemma WorkflowSound(sdk: Sdk, m: Module, d: Declared, j: nat)
    requires Binds(m, d, j) && forall fault :: !WorkflowFaulty(sdk, m, d, fault)
    ensures WorkflowOk(sdk, m, d)
  {
    FindsLastBinding(m.bindings, d.kind, j);
    assert !WorkflowFaulty(sdk, m, d, OtherEngine(j));
    assert !WorkflowFaulty(sdk, m, d, BadBindingSchema(j));
    assert !WorkflowFaulty(sdk, m, d, NonConforming(j));
    forall name | name in m.bindings[j].required ensures name in m.bindings[j].defaulted || name in m.bindings[j].given {
      assert !WorkflowFaulty(sdk, m, d, MissingInput(j, name));
    }
    forall id | id in m.bindings[j].toolIds ensures id in Ids(m.tools) {
      assert !WorkflowFaulty(sdk, m, d, MissingTool(j, id));
      ProvidesIff(m, id);
    }
  }

  lemma WorkflowSoundIff(sdk: Sdk, m: Module, d: Declared)
    ensures WorkflowOk(sdk, m, d) <==> forall fault :: !WorkflowFaulty(sdk, m, d, fault)
  {
    if fault :| WorkflowFaulty(sdk, m, d, fault) {
      WorkflowFaults(sdk, m, d, fault);
    } else {
      assert !WorkflowFaulty(sdk, m, d, MissingBinding);
      var n :| 0 <= n < |m.bindings| && m.bindings[n].kind == d.kind;
      var j := LastBinding(m.bindings, d.kind, n);
      WorkflowSound(sdk, m, d, j);
    }
  }

  // ----- a whole module

  datatype Fault =
    | OfPack(pack: PackFault) | OfProviders(provider: ProviderFault) | OfWorkflow(k: nat, workflow: WorkflowFault)
    | MissingRenderer(k: nat) | MissingHealth(k: nat) | MissingEval(k: nat)

  ghost predicate Faulty(sdk: Sdk, workbench: string, m: Module, fault: Fault) {
    match fault
    case OfPack(f) => PackFaulty(sdk, workbench, m, f)
    case OfProviders(f) => ProviderFaulty(sdk, m, f)
    case OfWorkflow(k, f) => k < |m.manifest.workflows| && WorkflowFaulty(sdk, m, m.manifest.workflows[k], f)
    case MissingRenderer(k) => k < |m.manifest.renderers| && m.manifest.renderers[k] !in m.webKinds
    case MissingHealth(k) => k < |m.manifest.healthChecks| && m.manifest.healthChecks[k] !in m.health
    case MissingEval(k) => k < |m.manifest.evals| && m.manifest.evals[k] !in m.evals
  }

  ghost predicate Faultless(sdk: Sdk, workbench: string, m: Module) {
    forall fault :: !Faulty(sdk, workbench, m, fault)
  }

  lemma PackPart(sdk: Sdk, workbench: string, m: Module)
    requires Faultless(sdk, workbench, m)
    ensures PartOk(PackId, sdk, workbench, m) && PartOk(ToolId, sdk, workbench, m)
  {
    forall f ensures !PackFaulty(sdk, workbench, m, f) { assert !Faulty(sdk, workbench, m, OfPack(f)); }
    PackSoundIff(sdk, workbench, m);
    forall f ensures !ProviderFaulty(sdk, m, f) { assert !Faulty(sdk, workbench, m, OfProviders(f)); }
    ProvidersSoundIff(sdk, workbench, m);
  }

  lemma WorkflowPart(sdk: Sdk, workbench: string, m: Module)
    requires Faultless(sdk, workbench, m)
    ensures PartOk(WorkflowType, sdk, workbench, m)
  {
    forall d | d in m.manifest.workflows ensures WorkflowOk(sdk, m, d) {
      var k :| 0 <= k < |m.manifest.workflows| && m.manifest.workflows[k] == d;
      forall f ensures !WorkflowFaulty(sdk, m, d, f) { assert !Faulty(sdk, workbench, m, OfWorkflow(k, f)); }
      WorkflowSoundIff(sdk, m, d);
    }
  }

  lemma WebPart(sdk: Sdk, workbench: string, m: Module)
    requires Faultless(sdk, workbench, m)
    ensures PartOk(RendererKind, sdk, workbench, m)
  {
    forall k: nat | k < |m.manifest.renderers| ensures m.manifest.renderers[k] in m.webKinds {
      assert !Faulty(sdk, workbench, m, MissingRenderer(k));
    }
    forall k: nat | k < |m.manifest.healthChecks| ensures m.manifest.healthChecks[k] in m.health {
      assert !Faulty(sdk, workbench, m, MissingHealth(k));
    }
    forall k: nat | k < |m.manifest.evals| ensures m.manifest.evals[k] in m.evals {
      assert !Faulty(sdk, workbench, m, MissingEval(k));
    }
  }

  lemma FaultShows(sdk: Sdk, workbench: string, m: Module, fault: Fault)
    requires Faulty(sdk, workbench, m, fault)
    ensures exists kind: Kind :: !PartOk(kind, sdk, workbench, m)
  {
    match fault
    case OfPack(f) => PackSoundIff(sdk, workbench, m);
    case OfProviders(f) => ProvidersSoundIff(sdk, workbench, m);
    case OfWorkflow(k, f) =>
      WorkflowSoundIff(sdk, m, m.manifest.workflows[k]);
      assert !PartOk(WorkflowType, sdk, workbench, m);
    case _ => assert !PartOk(RendererKind, sdk, workbench, m);
  }

  /** A module passes its own checks exactly if none of the errors applies to it. */
  lemma FaultlessIff(sdk: Sdk, workbench: string, m: Module)
    ensures LocalOk(sdk, workbench, m) <==> Faultless(sdk, workbench, m)
  {
    if fault :| Faulty(sdk, workbench, m, fault) {
      FaultShows(sdk, workbench, m, fault);
    } else {
      PackPart(sdk, workbench, m);
      WorkflowPart(sdk, workbench, m);
      WebPart(sdk, workbench, m);
    }
  }

  // ----- ids declared twice

  /** In its place `p` of a kind the module declares the id. */
  ghost predicate Declares(kind: Kind, m: Module, p: nat, id: string) {
    match kind
    case PackId => p == 0 && id == m.manifest.id
    case ToolId => p < |m.tools| && id == m.tools[p].id
    case WorkflowType => p < |m.manifest.workflows| && id == m.manifest.workflows[p].kind
    case RendererKind => p < |m.manifest.renderers| && id == m.manifest.renderers[p]
  }

  /** The name errors give the module: its package for pack ids, its pack id for the rest. */
  ghost predicate Anonymous(kind: Kind, m: Module) {
    match kind
    case PackId => m.package == ""
    case ToolId => m.manifest.id == ""
    case WorkflowType => m.manifest.id == ""
    case RendererKind => m.manifest.id == ""
  }

  ghost predicate Twice(kind: Kind, m: Module) {
    exists p: nat, q: nat, id :: p < q && Declares(kind, m, p, id) && Declares(kind, m, q, id)
  }

  ghost predicate Shared(kind: Kind, a: Module, b: Module) {
    exists p: nat, q: nat, id :: Declares(kind, a, p, id) && Declares(kind, b, q, id)
  }

  lemma ClaimAt(kind: Kind, m: Module, p: nat, id: string)
    ensures Declares(kind, m, p, id) <==> p < |ModuleClaims(kind, m)| && ModuleClaims(kind, m)[p].id == id
    ensures forall c :: c in ModuleClaims(kind, m) ==> (c.owner == "" <==> Anonymous(kind, m))
  {
  }

  lemma TwiceIff(kind: Kind, m: Module)
    ensures Unclashing(ModuleClaims(kind, m)) <==> FitsAlone(kind, m)
  {
    var claims := ModuleClaims(kind, m);
    ClaimAt(kind, m, 0, "");
    if p: nat, q: nat, id :| p < q && Declares(kind, m, p, id) && Declares(kind, m, q, id) {
      ClaimAt(kind, m, p, id);
      ClaimAt(kind, m, q, id);
    }
    forall p: nat, q: nat | p < q < |claims| && claims[p].id == claims[q].id ensures Twice(kind, m) {
      ClaimAt(kind, m, p, claims[p].id);
      ClaimAt(kind, m, q, claims[p].id);
    }
  }

  lemma SharedIff(kind: Kind, a: Module, b: Module)
    ensures Compatible(ModuleClaims(kind, a), ModuleClaims(kind, b)) <==> FitsBefore(kind, a, b)
  {
    var ca, cb := ModuleClaims(kind, a), ModuleClaims(kind, b);
    ClaimAt(kind, a, 0, "");
    if p: nat, q: nat, id :| Declares(kind, a, p, id) && Declares(kind, b, q, id) {
      ClaimAt(kind, a, p, id);
      ClaimAt(kind, b, q, id);
      assert ca[p] in ca && cb[q] in cb;
    }
    forall p: nat, q: nat | p < |ca| && q < |cb| && ca[p].id == cb[q].id ensures Shared(kind, a, b) {
      ClaimAt(kind, a, p, ca[p].id);
      ClaimAt(kind, b, q, ca[p].id);
    }
  }

  ghost predicate FitsAlone(kind: Kind, m: Module) {
    Twice(kind, m) ==> Anonymous(kind, m)
  }

  ghost predicate FitsBefore(kind: Kind, a: Module, b: Module) {
    Shared(kind, a, b) ==> Anonymous(kind, a)
  }

  /** No module with a name declares an id that it, or a module after it, declares again. */
  ghost predicate NoneTwice(kind: Kind, modules: seq<Module>) {
    && (forall i :: 0 <= i < |modules| ==> FitsAlone(kind, modules[i]))
    && (forall i, j :: 0 <= i < j < |modules| ==> FitsBefore(kind, modules[i], modules[j]))
  }

  lemma NoneTwiceIff(kind: Kind, modules: seq<Module>)
    ensures Unclashing(AllClaims(kind, modules)) <==> NoneTwice(kind, modules)
  {
    UnclashingModules(kind, modules);
    FitIff(kind, modules, ClaimLists(kind, modules));
  }

  lemma FitIff(kind: Kind, modules: seq<Module>, lists: seq<seq<Claim>>)
    requires |lists| == |modules| && forall i :: 0 <= i < |modules| ==> lists[i] == ModuleClaims(kind, modules[i])
    ensures ClaimsFit(lists) <==> NoneTwice(kind, modules)
  {
    forall i | 0 <= i < |modules| ensures Unclashing(lists[i]) <==> FitsAlone(kind, modules[i]) {
      TwiceIff(kind, modules[i]);
    }
    forall i, j | 0 <= i < j < |modules| ensures Compatible(lists[i], lists[j]) <==> FitsBefore(kind, modules[i], modules[j]) {
      SharedIff(kind, modules[i], modules[j]);
    }
  }

  /** The validator accepts exactly if the workbench version can be read, no error applies to any
      module, and no module with a name declares an id that is declared again. */
  lemma AcceptedIff(sdk: Sdk, workbench: string, modules: seq<Module>)
    ensures WellFormed(sdk, workbench, modules) <==>
      && sdk.parses(workbench)
      && (forall i :: 0 <= i < |modules| ==> Faultless(sdk, workbench, modules[i]))
      && (forall kind: Kind :: NoneTwice(kind, modules))
  {
    forall i | 0 <= i < |modules| ensures LocalOk(sdk, workbench, modules[i]) <==> Faultless(sdk, workbench, modules[i]) {
      FaultlessIff(sdk, workbench, modules[i]);
    }
    forall kind: Kind ensures Unclashing(AllClaims(kind, modules)) <==> NoneTwice(kind, modules) {
      NoneTwiceIff(kind, modules);
    }
  }
}
