/**
 `validateLoadedModules` (scripts/agent-pack-compiler.ts, lines 162-432): each module is
 checked on its own, and four tables of owners, shared by all modules, keep pack ids,
 tool ids, workflow types and renderer kinds from being declared twice.
 */
module PackCompiler {
  import opened Text
  import opened Order

  // ----- the data that is validated

  type Schema = string

  /** `timeoutMs` is absent if it is not an integer; `hasReconcile` says whether there is such a function. */
  datatype Action = Action(
    connectionId: string, proposalSchema: Schema, resultSchema: Schema, idempotency: string, approval: string,
    timeoutMs: Option<int>, hasReconcile: bool)

  datatype Policy = Policy(requiresApproval: bool, other: string)

  datatype Tool = Tool(
    id: string, description: string, inputSchema: Schema, outputSchema: Schema, executionModes: seq<string>,
    transport: string, adapterVersion: string, timeoutMs: int, maxArtifactBytes: int, sandbox: string, policy: Policy,
    action: Option<Action>, executable: bool)

  /** What of a tool its runner must repeat: all but how it is executed. */
  datatype Contract = Contract(
    id: string, description: string, inputSchema: Schema, outputSchema: Schema, executionModes: seq<string>,
    transport: string, adapterVersion: string, timeoutMs: int, maxArtifactBytes: int, sandbox: string, policy: Policy,
    action: Option<Action>)

  function ContractOf(t: Tool): Contract {
    Contract(t.id, t.description, t.inputSchema, t.outputSchema, t.executionModes, t.transport, t.adapterVersion,
             t.timeoutMs, t.maxArtifactBytes, t.sandbox, t.policy, t.action)
  }

  datatype Connection = Connection(id: string, toolIds: seq<string>, credentialClass: string)

  datatype Declared = Declared(kind: string, engine: string)

  /** `required` are the required names of the input schema, `defaulted` its properties with a default,
      and `given` the names of the conformance input. */
  datatype Binding = Binding(
    kind: string, engine: string, inputSchema: Schema, outputSchema: Schema, toolIds: seq<string>,
    required: seq<string>, defaulted: set<string>, given: set<string>)

  datatype Manifest = Manifest(
    apiVersion: int, kind: string, id: string, version: string, minimum: string, maximum: string,
    externalMutation: bool, productionGate: string, connections: seq<Connection>, tools: seq<string>,
    workflows: seq<Declared>, renderers: seq<string>, healthChecks: seq<string>, evals: seq<string>)

  datatype Runtime = Runtime(apiVersion: int, packId: string, runtimeVersion: string, compatiblePackVersions: string)

  /** A loaded module: its package, its manifest and its three runtimes. */
  datatype Module = Module(
    package: string, packageName: string, packageVersion: string, manifest: Manifest,
    controlPlane: Runtime, runner: Runtime, web: Runtime,
    tools: seq<Tool>, runnerTools: seq<Tool>, bindings: seq<Binding>, health: seq<string>, evals: seq<string>,
    webKinds: seq<string>)

  /** The functions of the SDK, and of the JSON writer, that the validator calls. */
  datatype Sdk = Sdk(
    parses: string -> bool,
    inverted: (string, string) -> bool,
    workbenchFits: (string, string, string) -> bool,
    packFits: (string, string) -> bool,
    schemaDefined: Schema -> bool,
    conforms: Binding -> bool,
    write: Contract -> string)

  // ----- owners: who declared an id first

  datatype Claim = Claim(id: string, owner: string)

  type Owners = map<string, string>

  /** An owner that is the empty string does not count: the source tests it for truth. */
  predicate Free(seen: Owners, id: string) {
    id !in seen || seen[id] == ""
  }

  /** The table after claims, or none if one of them is refused. */
  function Claimed(seen: Owners, claims: seq<Claim>): Option<Owners> {
    if claims == [] then Some(seen)
    else
      var before, c := Claimed(seen, claims[..|claims| - 1]), claims[|claims| - 1];
      if before.None? || !Free(before.value, c.id) then None else Some(before.value[c.id := c.owner])
  }

  method RequireUnique(seen: Owners, id: string, owner: string) returns (ok: bool, seen': Owners)
    ensures ok <==> Free(seen, id)
    ensures ok ==> seen' == seen[id := owner]
  {
    if id in seen && seen[id] != "" { return false, seen; }
    return true, seen[id := owner];
  }

  function ClaimsFor(ids: seq<string>, owner: string): (cs: seq<Claim>)
    ensures |cs| == |ids| && forall i :: 0 <= i < |ids| ==> cs[i] == Claim(ids[i], owner)
  {
    if ids == [] then [] else ClaimsFor(ids[..|ids| - 1], owner) + [Claim(ids[|ids| - 1], owner)]
  }

  lemma {:induction false} ClaimedPrefix(seen: Owners, claims: seq<Claim>, k: nat)
    requires k <= |claims| && Claimed(seen, claims[..k]).None?
    ensures Claimed(seen, claims).None?
  {
    if k == |claims| {
      assert claims[..k] == claims;
    } else {
      assert claims[..|claims| - 1][..k] == claims[..k];
      ClaimedPrefix(seen, claims[..|claims| - 1], k);
    }
  }

  method ClaimAll(seen: Owners, claims: seq<Claim>) returns (ok: bool, seen': Owners)
    ensures ok <==> Claimed(seen, claims).Some?
    ensures ok ==> Claimed(seen, claims) == Some(seen')
  {
    seen' := seen;
    for k := 0 to |claims|
      invariant Claimed(seen, claims[..k]) == Some(seen')
    {
      assert claims[..k + 1][..k] == claims[..k];
      var fine, next := RequireUnique(seen', claims[k].id, claims[k].owner);
      if !fine {
        ClaimedPrefix(seen, claims, k + 1);
        return false, seen';
      }
      seen' := next;
    }
    assert claims[..|claims|] == claims;
    return true, seen';
  }

  lemma {:induction false} ClaimedConcat(seen: Owners, a: seq<Claim>, b: seq<Claim>)
    ensures Claimed(seen, a + b) == if Claimed(seen, a).None? then None else Claimed(Claimed(seen, a).value, b)
  {
    if b == [] {
      assert a + b == a;
    } else {
      assert (a + b)[..|a + b| - 1] == a + b[..|b| - 1];
      ClaimedConcat(seen, a, b[..|b| - 1]);
    }
  }

  /** No id is claimed again after a claim whose owner counts. */
  predicate Unclashing(claims: seq<Claim>) {
    forall i, j :: 0 <= i < j < |claims| && claims[i].id == claims[j].id ==> claims[i].owner == ""
  }

  /** Some claim of the id has an owner that counts. */
  predicate Held(claims: seq<Claim>, id: string) {
    exists i :: 0 <= i < |claims| && claims[i].id == id && claims[i].owner != ""
  }

  lemma HeldStep(claims: seq<Claim>, id: string)
    requires claims != []
    ensures var k := |claims| - 1;
      Held(claims, id) <==> Held(claims[..k], id) || (claims[k].id == id && claims[k].owner != "")
  {
    var k := |claims| - 1;
    assert forall i :: 0 <= i < k ==> claims[..k][i] == claims[i];
  }

  lemma {:induction false} ClaimedIff(claims: seq<Claim>)
    ensures Claimed(map[], claims).Some? <==> Unclashing(claims)
    ensures Claimed(map[], claims).Some? ==> forall id :: !Free(Claimed(map[], claims).value, id) <==> Held(claims, id)
  {
    if claims != [] {
      var k := |claims| - 1;
      var front, c := claims[..k], claims[k];
      ClaimedIff(front);
      UnclashingStep(claims);
      forall id ensures Held(claims, id) <==> Held(front, id) || (c.id == id && c.owner != "") {
        HeldStep(claims, id);
      }
    }
  }

  lemma UnclashingStep(claims: seq<Claim>)
    requires claims != []
    ensures var k := |claims| - 1; Unclashing(claims) <==>
      Unclashing(claims[..k]) && !Held(claims[..k], claims[k].id)
  {
    var k := |claims| - 1;
    assert forall i :: 0 <= i < k ==> claims[..k][i] == claims[i];
  }

  // ----- the checks on one module

  function Ids(tools: seq<Tool>): (ids: seq<string>)
    ensures |ids| == |tools| && forall i :: 0 <= i < |tools| ==> ids[i] == tools[i].id
  {
    if tools == [] then [] else Ids(tools[..|tools| - 1]) + [tools[|tools| - 1].id]
  }

  function Kinds(workflows: seq<Declared>): (kinds: seq<string>)
    ensures |kinds| == |workflows| && forall i :: 0 <= i < |workflows| ==> kinds[i] == workflows[i].kind
  {
    if workflows == [] then [] else Kinds(workflows[..|workflows| - 1]) + [workflows[|workflows| - 1].kind]
  }

  /** `new Map(tools.map((tool) => [tool.id, tool])).get(id)` */
  function FindTool(tools: seq<Tool>, id: string): (found: Option<Tool>)
    ensures found.Some? ==> found.value in tools && found.value.id == id
    ensures found.None? <==> forall j :: 0 <= j < |tools| ==> tools[j].id != id
  {
    if tools == [] then None
    else if tools[|tools| - 1].id == id then Some(tools[|tools| - 1])
    else FindTool(tools[..|tools| - 1], id)
  }

  /** The last tool with the id is found. */
  lemma {:induction false} FindsLastTool(tools: seq<Tool>, id: string, j: nat)
    requires j < |tools| && tools[j].id == id && forall k :: j < k < |tools| ==> tools[k].id != id
    ensures FindTool(tools, id) == Some(tools[j])
  {
    if j < |tools| - 1 { FindsLastTool(tools[..|tools| - 1], id, j); }
  }

  function FindBinding(bindings: seq<Binding>, kind: string): (found: Option<Binding>)
    ensures found.Some? ==> found.value in bindings && found.value.kind == kind
    ensures found.None? <==> forall j :: 0 <= j < |bindings| ==> bindings[j].kind != kind
  {
    if bindings == [] then None
    else if bindings[|bindings| - 1].kind == kind then Some(bindings[|bindings| - 1])
    else FindBinding(bindings[..|bindings| - 1], kind)
  }

  /** The last binding of the kind is found. */
  lemma {:induction false} FindsLastBinding(bindings: seq<Binding>, kind: string, j: nat)
    requires j < |bindings| && bindings[j].kind == kind && forall k :: j < k < |bindings| ==> bindings[k].kind != kind
    ensures FindBinding(bindings, kind) == Some(bindings[j])
  {
    if j < |bindings| - 1 { FindsLastBinding(bindings[..|bindings| - 1], kind, j); }
  }

  /** The first connection with the id that binds the tool. */
  function FindConnection(connections: seq<Connection>, id: string, toolId: string): (found: Option<Connection>)
    ensures found.Some? ==> found.value in connections && found.value.id == id && toolId in found.value.toolIds
    ensures found.None? <==> forall j :: 0 <= j < |connections| ==> connections[j].id != id || toolId !in connections[j].toolIds
  {
    if connections == [] then None
    else if connections[0].id == id && toolId in connections[0].toolIds then Some(connections[0])
    else FindConnection(connections[1..], id, toolId)
  }

  lemma {:induction false} FindsFirstConnection(connections: seq<Connection>, id: string, toolId: string, j: nat)
    requires j < |connections| && connections[j].id == id && toolId in connections[j].toolIds
    requires forall k :: 0 <= k < j ==> connections[k].id != id || toolId !in connections[k].toolIds
    ensures FindConnection(connections, id, toolId) == Some(connections[j])
  {
    if j > 0 { FindsFirstConnection(connections[1..], id, toolId, j - 1); }
  }

  predicate ActionOk(sdk: Sdk, m: Module, t: Tool, a: Action) {
    && sdk.schemaDefined(a.proposalSchema) && sdk.schemaDefined(a.resultSchema)
    && a.idempotency == "required"
    && a.timeoutMs.Some? && 1 <= a.timeoutMs.value <= t.timeoutMs
    && (a.approval == "required" ==> t.policy.requiresApproval)
    && (a.connectionId != "" ==>
          var c := FindConnection(m.manifest.connections, a.connectionId, t.id);
          c.Some? && c.value.credentialClass != "none")
  }

  /** A fly tool has a runner tool whose contract is written alike; another tool has none. */
  predicate TransportOk(sdk: Sdk, m: Module, t: Tool) {
    var runnerTool := FindTool(m.runnerTools, t.id);
    if t.transport == "fly" then runnerTool.Some? && sdk.write(ContractOf(t)) == sdk.write(ContractOf(runnerTool.value))
    else runnerTool.None?
  }

  predicate ToolOk(sdk: Sdk, m: Module, t: Tool) {
    && sdk.schemaDefined(t.inputSchema) && sdk.schemaDefined(t.outputSchema)
    && t.executionModes != []
    && (forall mode :: mode in t.executionModes ==> mode in ["ask", "dry_run", "execute"])
    && ("execute" in t.executionModes ==>
          m.manifest.externalMutation && m.manifest.productionGate != "none" && t.action.Some?)
    && (t.action.Some? ==> ActionOk(sdk, m, t, t.action.value))
    && TransportOk(sdk, m, t)
  }

  /** Every required name has a default or is given. */
  predicate Supplied(b: Binding) {
    forall name :: name in b.required ==> name in b.defaulted || name in b.given
  }

  predicate WorkflowOk(sdk: Sdk, m: Module, d: Declared) {
    var b := FindBinding(m.bindings, d.kind);
    && b.Some? && b.value.engine == d.engine
    && sdk.schemaDefined(b.value.inputSchema) && sdk.schemaDefined(b.value.outputSchema)
    && Supplied(b.value) && sdk.conforms(b.value)
    && forall id :: id in b.value.toolIds ==> id in Ids(m.tools)
  }

  predicate VersionsOk(sdk: Sdk, workbench: string, m: Module) {
    var p := m.manifest;
    && p.apiVersion == 2 && p.kind == "agent_pack"
    && sdk.parses(p.minimum)
    && (p.maximum != "" ==> sdk.parses(p.maximum) && !sdk.inverted(p.minimum, p.maximum))
    && sdk.workbenchFits(workbench, p.minimum, p.maximum)
    && m.packageName == m.package
    && m.packageVersion == p.version
  }

  predicate RuntimeOk(sdk: Sdk, m: Module, r: Runtime) {
    && r.apiVersion == 1 && r.packId == m.manifest.id
    && r.runtimeVersion == m.controlPlane.runtimeVersion
    && r.compatiblePackVersions == m.controlPlane.compatiblePackVersions
    && sdk.packFits(m.manifest.version, r.compatiblePackVersions)
  }

  predicate RuntimesOk(sdk: Sdk, m: Module) {
    RuntimeOk(sdk, m, m.controlPlane) && RuntimeOk(sdk, m, m.runner) && RuntimeOk(sdk, m, m.web)
  }

  predicate ToolsOk(sdk: Sdk, m: Module) {
    && Distinct(Ids(m.tools)) && Distinct(Ids(m.runnerTools))
    && (forall t :: t in m.tools ==> ToolOk(sdk, m, t))
    && (forall r :: r in m.runnerTools ==> r.id in Ids(m.tools) && r.executable)
  }

  predicate AllIn(ids: seq<string>, known: seq<string>) {
    forall id :: id in ids ==> id in known
  }

  predicate WorkflowsOk(sdk: Sdk, m: Module) {
    forall d :: d in m.manifest.workflows ==> WorkflowOk(sdk, m, d)
  }

  predicate RenderersOk(m: Module) {
    && AllIn(m.manifest.renderers, m.webKinds)
    && AllIn(m.manifest.healthChecks, m.health)
    && AllIn(m.manifest.evals, m.evals)
  }

  /** The four tables of owners. */
  datatype Kind = PackId | ToolId | WorkflowType | RendererKind

  /** The checks of one module made around the claims of a kind. */
  predicate PartOk(kind: Kind, sdk: Sdk, workbench: string, m: Module) {
    match kind
    case PackId => VersionsOk(sdk, workbench, m) && RuntimesOk(sdk, m)
    case ToolId => ToolsOk(sdk, m) && AllIn(m.manifest.tools, Ids(m.tools))
    case WorkflowType => WorkflowsOk(sdk, m)
    case RendererKind => RenderersOk(m)
  }

  /** All checks of one module that do not look at the other modules. */
  predicate LocalOk(sdk: Sdk, workbench: string, m: Module) {
    forall kind: Kind :: PartOk(kind, sdk, workbench, m)
  }

  // ----- the checks, in the order of the source

  method CheckVersions(sdk: Sdk, workbench: string, m: Module) returns (ok: bool)
    ensures ok <==> VersionsOk(sdk, workbench, m)
  {
    var p := m.manifest;
    if p.apiVersion != 2 || p.kind != "agent_pack" { return false; }
    if !sdk.parses(p.minimum) { return false; }
    if p.maximum != "" && !sdk.parses(p.maximum) { return false; }
    if p.maximum != "" && sdk.inverted(p.minimum, p.maximum) { return false; }
    if !sdk.workbenchFits(workbench, p.minimum, p.maximum) { return false; }
    if m.packageName != m.package { return false; }
    return m.packageVersion == p.version;
  }

  method CheckRuntimes(sdk: Sdk, m: Module) returns (ok: bool)
    ensures ok <==> RuntimesOk(sdk, m)
  {
    var runtimes := [m.controlPlane, m.runner, m.web];
    for k := 0 to 3
      invariant forall i :: 0 <= i < k ==> RuntimeOk(sdk, m, runtimes[i])
    {
      var runtime := runtimes[k];
      if runtime.apiVersion != 1 || runtime.packId != m.manifest.id { return false; }
      if runtime.runtimeVersion != m.controlPlane.runtimeVersion
         || runtime.compatiblePackVersions != m.controlPlane.compatiblePackVersions { return false; }
      if !sdk.packFits(m.manifest.version, runtime.compatiblePackVersions) { return false; }
    }
    assert runtimes[0] == m.controlPlane && runtimes[1] == m.runner && runtimes[2] == m.web;
    return true;
  }

  method CheckAction(sdk: Sdk, m: Module, t: Tool, a: Action) returns (ok: bool)
    ensures ok <==> ActionOk(sdk, m, t, a)
  {
    if !sdk.schemaDefined(a.proposalSchema) { return false; }
    if !sdk.schemaDefined(a.resultSchema) { return false; }
    if a.idempotency != "required" { return false; }
    if a.timeoutMs.None? || a.timeoutMs.value < 1 || a.timeoutMs.value > t.timeoutMs { return false; }
    if a.approval == "required" && !t.policy.requiresApproval { return false; }
    if a.connectionId != "" {
      var connection := FindConnection(m.manifest.connections, a.connectionId, t.id);
      if connection.None? || connection.value.credentialClass == "none" { return false; }
    }
    return true;
  }

  method CheckTransport(sdk: Sdk, m: Module, t: Tool) returns (ok: bool)
    ensures ok <==> TransportOk(sdk, m, t)
  {
    var runnerTool := FindTool(m.runnerTools, t.id);
    if t.transport == "fly" {
      if runnerTool.None? { return false; }
      if sdk.write(ContractOf(t)) != sdk.write(ContractOf(runnerTool.value)) { return false; }
    } else if runnerTool.Some? {
      return false;
    }
    return true;
  }

  method CheckTool(sdk: Sdk, m: Module, t: Tool) returns (ok: bool)
    ensures ok <==> ToolOk(sdk, m, t)
  {
    if !sdk.schemaDefined(t.inputSchema) { return false; }
    if !sdk.schemaDefined(t.outputSchema) { return false; }
    if t.executionModes == [] { return false; }
    if exists mode :: mode in t.executionModes && mode !in ["ask", "dry_run", "execute"] { return false; }
    if "execute" in t.executionModes {
      if !m.manifest.externalMutation || m.manifest.productionGate == "none" { return false; }
      if t.action.None? { return false; }
    }
    if t.action.Some? {
      ok := CheckAction(sdk, m, t, t.action.value);
      if !ok { return false; }
    }
    ok := CheckTransport(sdk, m, t);
  }

  method CheckEachTool(sdk: Sdk, m: Module) returns (ok: bool)
    ensures ok <==> forall t :: t in m.tools ==> ToolOk(sdk, m, t)
  {
    for k := 0 to |m.tools|
      invariant forall i :: 0 <= i < k ==> ToolOk(sdk, m, m.tools[i])
    {
      ok := CheckTool(sdk, m, m.tools[k]);
      if !ok { return false; }
    }
    return true;
  }

  method CheckRunnerTools(m: Module) returns (ok: bool)
    ensures ok <==> forall r :: r in m.runnerTools ==> r.id in Ids(m.tools) && r.executable
  {
    for k := 0 to |m.runnerTools|
      invariant forall i :: 0 <= i < k ==> m.runnerTools[i].id in Ids(m.tools) && m.runnerTools[i].executable
    {
      if m.runnerTools[k].id !in Ids(m.tools) { return false; }
      if !m.runnerTools[k].executable { return false; }
    }
    return true;
  }

  /** The sizes of the maps are compared with the lengths of the lists. */
  method CheckTools(sdk: Sdk, m: Module) returns (ok: bool)
    ensures ok <==> ToolsOk(sdk, m)
  {
    SizeIffDistinct(Ids(m.tools));
    SizeIffDistinct(Ids(m.runnerTools));
    if |Elements(Ids(m.tools))| != |m.tools| { return false; }
    if |Elements(Ids(m.runnerTools))| != |m.runnerTools| { return false; }
    ok := CheckEachTool(sdk, m);
    if !ok { return false; }
    ok := CheckRunnerTools(m);
  }

  /** The loops over the declared tools, the health checks and the evals. */
  method CheckKnown(ids: seq<string>, known: seq<string>) returns (ok: bool)
    ensures ok <==> AllIn(ids, known)
  {
    for k := 0 to |ids|
      invariant forall i :: 0 <= i < k ==> ids[i] in known
    {
      if ids[k] !in known { return false; }
    }
    return true;
  }

  method CheckSupplied(b: Binding) returns (ok: bool)
    ensures ok <==> Supplied(b)
  {
    for k := 0 to |b.required|
      invariant forall i :: 0 <= i < k ==> b.required[i] in b.defaulted || b.required[i] in b.given
    {
      if b.required[k] !in b.defaulted && b.required[k] !in b.given { return false; }
    }
    return true;
  }

  /** The workflow type is claimed before the binding's tools are looked up. */
  method CheckWorkflow(sdk: Sdk, m: Module, d: Declared, seen: Owners) returns (ok: bool, seen': Owners)
    ensures ok <==> WorkflowOk(sdk, m, d) && Free(seen, d.kind)
    ensures ok ==> seen' == seen[d.kind := m.manifest.id]
  {
    seen' := seen;
    var binding := FindBinding(m.bindings, d.kind);
    if binding.None? { return false, seen; }
    var b := binding.value;
    if b.engine != d.engine { return false, seen; }
    if !sdk.schemaDefined(b.inputSchema) { return false, seen; }
    if !sdk.schemaDefined(b.outputSchema) { return false, seen; }
    ok := CheckSupplied(b);
    if !ok { return false, seen; }
    if !sdk.conforms(b) { return false, seen; }
    ok, seen' := RequireUnique(seen, d.kind, m.manifest.id);
    if !ok { return false, seen; }
    ok := CheckKnown(b.toolIds, Ids(m.tools));
  }

  lemma ClaimedNext(seen: Owners, claims: seq<Claim>, k: nat, now: Owners)
    requires k < |claims| && Claimed(seen, claims[..k]) == Some(now)
    ensures Free(now, claims[k].id) ==> Claimed(seen, claims[..k + 1]) == Some(now[claims[k].id := claims[k].owner])
    ensures !Free(now, claims[k].id) ==> Claimed(seen, claims).None?
  {
    assert claims[..k + 1][..k] == claims[..k];
    if !Free(now, claims[k].id) { ClaimedPrefix(seen, claims, k + 1); }
  }

  method CheckRenderers(m: Module, seen: Owners) returns (ok: bool, seen': Owners)
    ensures var claims := ClaimsFor(m.manifest.renderers, m.manifest.id);
      && (ok <==> AllIn(m.manifest.renderers, m.webKinds) && Claimed(seen, claims).Some?)
      && (ok ==> Claimed(seen, claims) == Some(seen'))
  {
    var renderers := m.manifest.renderers;
    ghost var claims := ClaimsFor(renderers, m.manifest.id);
    seen' := seen;
    for k := 0 to |renderers|
      invariant forall i :: 0 <= i < k ==> renderers[i] in m.webKinds
      invariant Claimed(seen, claims[..k]) == Some(seen')
    {
      ClaimedNext(seen, claims, k, seen');
      if renderers[k] !in m.webKinds { return false, seen'; }
      var fine, next := RequireUnique(seen', renderers[k], m.manifest.id);
      if !fine { return false, seen'; }
      seen' := next;
    }
    assert claims[..|renderers|] == claims;
    return true, seen';
  }

  // ----- the loop over the modules

  function IdsOf(kind: Kind, m: Module): seq<string> {
    match kind
    case PackId => [m.manifest.id]
    case ToolId => Ids(m.tools)
    case WorkflowType => Kinds(m.manifest.workflows)
    case RendererKind => m.manifest.renderers
  }

  function OwnerOf(kind: Kind, m: Module): string {
    if kind.PackId? then m.package else m.manifest.id
  }

  function ModuleClaims(kind: Kind, m: Module): seq<Claim> {
    ClaimsFor(IdsOf(kind, m), OwnerOf(kind, m))
  }

  function AllClaims(kind: Kind, modules: seq<Module>): seq<Claim> {
    if modules == [] then []
    else AllClaims(kind, modules[..|modules| - 1]) + ModuleClaims(kind, modules[|modules| - 1])
  }

  /** No id of any kind is declared after a declaration whose owner counts. */
  predicate AllUnclashing(modules: seq<Module>) {
    forall kind: Kind :: Unclashing(AllClaims(kind, modules))
  }

  predicate AllLocalOk(sdk: Sdk, workbench: string, modules: seq<Module>) {
    forall i :: 0 <= i < |modules| ==> LocalOk(sdk, workbench, modules[i])
  }

  /** What acceptance means. */
  predicate WellFormed(sdk: Sdk, workbench: string, modules: seq<Module>) {
    sdk.parses(workbench) && AllLocalOk(sdk, workbench, modules) && AllUnclashing(modules)
  }

  datatype Tables = Tables(packIds: Owners, toolIds: Owners, workflowTypes: Owners, artifactKinds: Owners)

  function TableOf(kind: Kind, tables: Tables): Owners {
    match kind
    case PackId => tables.packIds
    case ToolId => tables.toolIds
    case WorkflowType => tables.workflowTypes
    case RendererKind => tables.artifactKinds
  }

  /** The tables after the claims of one module of a kind, or none if one of them is refused. */
  function After(kind: Kind, tables: Tables, m: Module): Option<Owners> {
    Claimed(TableOf(kind, tables), ModuleClaims(kind, m))
  }

  /** No claim of the module is refused. */
  predicate Fits(tables: Tables, m: Module) {
    forall kind: Kind :: After(kind, tables, m).Some?
  }

  predicate Updated(tables: Tables, m: Module, tables': Tables) {
    forall kind: Kind :: After(kind, tables, m) == Some(TableOf(kind, tables'))
  }

  /** The checks of a kind pass and its claims are accepted. */
  predicate TurnOk(kind: Kind, sdk: Sdk, workbench: string, m: Module, seen: Owners) {
    PartOk(kind, sdk, workbench, m) && Claimed(seen, ModuleClaims(kind, m)).Some?
  }

  lemma ClaimedOne(seen: Owners, id: string, owner: string)
    ensures Claimed(seen, ClaimsFor([id], owner)) == if Free(seen, id) then Some(seen[id := owner]) else None
  {
    var claims := ClaimsFor([id], owner);
    assert claims[..0] == [] && Claimed(seen, claims[..0]) == Some(seen);
  }

  /** The first part of a turn, up to the pack id and the runtimes. */
  method CheckPack(sdk: Sdk, workbench: string, m: Module, seen: Owners) returns (ok: bool, seen': Owners)
    ensures ok <==> TurnOk(PackId, sdk, workbench, m, seen)
    ensures ok ==> Claimed(seen, ModuleClaims(PackId, m)) == Some(seen')
  {
    seen' := seen;
    ClaimedOne(seen, m.manifest.id, m.package);
    ok := CheckVersions(sdk, workbench, m);
    if !ok { return false, seen; }
    ok, seen' := RequireUnique(seen, m.manifest.id, m.package);
    if !ok { return false, seen; }
    ok := CheckRuntimes(sdk, m);
  }

  /** The second part: the tools of both runtimes. The keys of a map without repetitions are the ids in order. */
  method CheckProviders(sdk: Sdk, workbench: string, m: Module, seen: Owners) returns (ok: bool, seen': Owners)
    ensures ok <==> TurnOk(ToolId, sdk, workbench, m, seen)
    ensures ok ==> Claimed(seen, ModuleClaims(ToolId, m)) == Some(seen')
  {
    seen' := seen;
    ok := CheckTools(sdk, m);
    if !ok { return false, seen; }
    ok, seen' := ClaimAll(seen, ModuleClaims(ToolId, m));
    if !ok { return false, seen; }
    ok := CheckKnown(m.manifest.tools, Ids(m.tools));
  }

  /** The workflows before `k` are sound and claimed. */
  predicate WorkflowsDone(sdk: Sdk, m: Module, seen: Owners, k: nat, now: Owners)
    requires k <= |m.manifest.workflows|
  {
    && (forall i :: 0 <= i < k ==> WorkflowOk(sdk, m, m.manifest.workflows[i]))
    && Claimed(seen, ModuleClaims(WorkflowType, m)[..k]) == Some(now)
  }

  method WorkflowTurn(sdk: Sdk, workbench: string, m: Module, seen: Owners, k: nat, now: Owners) returns (ok: bool, next: Owners)
    requires k < |m.manifest.workflows| && WorkflowsDone(sdk, m, seen, k, now)
    ensures ok ==> WorkflowsDone(sdk, m, seen, k + 1, next)
    ensures !ok ==> !TurnOk(WorkflowType, sdk, workbench, m, seen)
  {
    ClaimedNext(seen, ModuleClaims(WorkflowType, m), k, now);
    ok, next := CheckWorkflow(sdk, m, m.manifest.workflows[k], now);
  }

  lemma AllWorkflowsDone(sdk: Sdk, workbench: string, m: Module, seen: Owners, now: Owners)
    requires WorkflowsDone(sdk, m, seen, |m.manifest.workflows|, now)
    ensures TurnOk(WorkflowType, sdk, workbench, m, seen) && Claimed(seen, ModuleClaims(WorkflowType, m)) == Some(now)
  {
    var claims := ModuleClaims(WorkflowType, m);
    assert claims[..|claims|] == claims;
  }

  /** The third part: the workflows. */
  method CheckWorkflows(sdk: Sdk, workbench: string, m: Module, seen: Owners) returns (ok: bool, seen': Owners)
    ensures ok <==> TurnOk(WorkflowType, sdk, workbench, m, seen)
    ensures ok ==> Claimed(seen, ModuleClaims(WorkflowType, m)) == Some(seen')
  {
    seen' := seen;
    assert ModuleClaims(WorkflowType, m)[..0] == [];
    for k := 0 to |m.manifest.workflows|
      invariant WorkflowsDone(sdk, m, seen, k, seen')
    {
      var fine, next := WorkflowTurn(sdk, workbench, m, seen, k, seen');
      if !fine { return false, seen'; }
      seen' := next;
    }
    AllWorkflowsDone(sdk, workbench, m, seen, seen');
    return true, seen';
  }

  /** The last part: the renderers, the health checks and the evals. */
  method CheckWeb(sdk: Sdk, workbench: string, m: Module, seen: Owners) returns (ok: bool, seen': Owners)
    ensures ok <==> TurnOk(RendererKind, sdk, workbench, m, seen)
    ensures ok ==> Claimed(seen, ModuleClaims(RendererKind, m)) == Some(seen')
  {
    ok, seen' := CheckRenderers(m, seen);
    if !ok { return false, seen; }
    ok := CheckKnown(m.manifest.healthChecks, m.health);
    if !ok { return false, seen; }
    ok := CheckKnown(m.manifest.evals, m.evals);
  }

  predicate AllTurnsOk(sdk: Sdk, workbench: string, m: Module, tables: Tables) {
    forall kind: Kind :: TurnOk(kind, sdk, workbench, m, TableOf(kind, tables))
  }

  lemma AllTurnsOkIff(sdk: Sdk, workbench: string, m: Module, tables: Tables)
    ensures AllTurnsOk(sdk, workbench, m, tables) <==> LocalOk(sdk, workbench, m) && Fits(tables, m)
  {
    forall kind: Kind ensures TurnOk(kind, sdk, workbench, m, TableOf(kind, tables))
                         <==> PartOk(kind, sdk, workbench, m) && After(kind, tables, m).Some?
    {
    }
    if AllTurnsOk(sdk, workbench, m, tables) {
      forall kind: Kind ensures PartOk(kind, sdk, workbench, m) && After(kind, tables, m).Some? {
        assert TurnOk(kind, sdk, workbench, m, TableOf(kind, tables));
      }
    }
  }

  /** A turn whose checks and claims all went through. */
  lemma TurnDone(sdk: Sdk, workbench: string, m: Module, tables: Tables, tables': Tables)
    requires forall kind: Kind :: TurnOk(kind, sdk, workbench, m, TableOf(kind, tables))
    requires forall kind: Kind :: Claimed(TableOf(kind, tables), ModuleClaims(kind, m)) == Some(TableOf(kind, tables'))
    ensures AllTurnsOk(sdk, workbench, m, tables) && Updated(tables, m, tables')
  {
  }

  /** One turn of the loop. Which failure is reported is not modelled. */
  method CheckModule(sdk: Sdk, workbench: string, m: Module, tables: Tables) returns (ok: bool, tables': Tables)
    ensures ok <==> AllTurnsOk(sdk, workbench, m, tables)
    ensures ok ==> Updated(tables, m, tables')
  {
    var packIds, toolIds, workflowTypes, artifactKinds;
    ok, packIds := CheckPack(sdk, workbench, m, TableOf(PackId, tables));
    if !ok { return false, tables; }
    ok, toolIds := CheckProviders(sdk, workbench, m, TableOf(ToolId, tables));
    if !ok { return false, tables; }
    ok, workflowTypes := CheckWorkflows(sdk, workbench, m, TableOf(WorkflowType, tables));
    if !ok { return false, tables; }
    ok, artifactKinds := CheckWeb(sdk, workbench, m, TableOf(RendererKind, tables));
    if !ok { return false, tables; }
    tables' := Tables(packIds, toolIds, workflowTypes, artifactKinds);
    assert forall kind: Kind :: kind.PackId? || kind.ToolId? || kind.WorkflowType? || kind.RendererKind?;
    TurnDone(sdk, workbench, m, tables, tables');
  }

  lemma {:induction false} AllClaimsPrefix(kind: Kind, modules: seq<Module>, k: nat)
    requires k <= |modules|
    ensures |AllClaims(kind, modules[..k])| <= |AllClaims(kind, modules)|
    ensures AllClaims(kind, modules)[..|AllClaims(kind, modules[..k])|] == AllClaims(kind, modules[..k])
  {
    if k == |modules| {
      assert modules[..k] == modules;
    } else {
      var front := modules[..|modules| - 1];
      assert front[..k] == modules[..k];
      AllClaimsPrefix(kind, front, k);
    }
  }

  lemma ClashStays(kind: Kind, modules: seq<Module>, k: nat)
    requires k <= |modules| && !Unclashing(AllClaims(kind, modules[..k]))
    ensures !Unclashing(AllClaims(kind, modules))
  {
    AllClaimsPrefix(kind, modules, k);
    var part, all := AllClaims(kind, modules[..k]), AllClaims(kind, modules);
    assert forall i :: 0 <= i < |part| ==> part[i] == all[i];
  }

  /** The table of a kind holds what the modules claim. */
  predicate Holds(kind: Kind, seen: Owners, modules: seq<Module>) {
    Claimed(map[], AllClaims(kind, modules)) == Some(seen)
  }

  lemma ClaimsNext(kind: Kind, modules: seq<Module>, k: nat)
    requires k < |modules|
    ensures AllClaims(kind, modules[..k + 1]) == AllClaims(kind, modules[..k]) + ModuleClaims(kind, modules[k])
  {
    assert modules[..k + 1][..k] == modules[..k];
  }

  lemma RefusedClash(part: seq<Claim>, more: seq<Claim>, seen: Owners)
    requires Claimed(map[], part) == Some(seen) && Claimed(seen, more).None?
    ensures !Unclashing(part + more)
  {
    ClaimedConcat(map[], part, more);
    ClaimedIff(part + more);
  }

  lemma HoldsNext(kind: Kind, seen: Owners, modules: seq<Module>, k: nat, next: Owners)
    requires k < |modules| && Holds(kind, seen, modules[..k])
    requires Claimed(seen, ModuleClaims(kind, modules[k])) == Some(next)
    ensures Holds(kind, next, modules[..k + 1])
  {
    ClaimsNext(kind, modules, k);
    ClaimedConcat(map[], AllClaims(kind, modules[..k]), ModuleClaims(kind, modules[k]));
  }

  lemma HoldsClash(kind: Kind, seen: Owners, modules: seq<Module>, k: nat)
    requires k < |modules| && Holds(kind, seen, modules[..k])
    requires Claimed(seen, ModuleClaims(kind, modules[k])).None?
    ensures !Unclashing(AllClaims(kind, modules))
  {
    RefusedClash(AllClaims(kind, modules[..k]), ModuleClaims(kind, modules[k]), seen);
    ClaimsNext(kind, modules, k);
    ClashStays(kind, modules, k + 1);
  }

  lemma HoldsIsUnclashing(kind: Kind, seen: Owners, modules: seq<Module>)
    requires Holds(kind, seen, modules)
    ensures Unclashing(AllClaims(kind, modules))
  {
    ClaimedIff(AllClaims(kind, modules));
  }

  predicate AllHold(tables: Tables, modules: seq<Module>) {
    forall kind: Kind :: Holds(kind, TableOf(kind, tables), modules)
  }

  lemma AllHoldIsUnclashing(tables: Tables, modules: seq<Module>)
    requires AllHold(tables, modules)
    ensures AllUnclashing(modules)
  {
    forall kind: Kind ensures Unclashing(AllClaims(kind, modules)) {
      HoldsIsUnclashing(kind, TableOf(kind, tables), modules);
    }
  }

  lemma TurnHolds(tables: Tables, modules: seq<Module>, k: nat, tables': Tables)
    requires k < |modules| && AllHold(tables, modules[..k]) && Updated(tables, modules[k], tables')
    ensures AllHold(tables', modules[..k + 1])
  {
    forall kind: Kind ensures Holds(kind, TableOf(kind, tables'), modules[..k + 1]) {
      assert After(kind, tables, modules[k]) == Some(TableOf(kind, tables'));
      HoldsNext(kind, TableOf(kind, tables), modules, k, TableOf(kind, tables'));
    }
  }

  lemma TurnClashes(tables: Tables, modules: seq<Module>, k: nat)
    requires k < |modules| && AllHold(tables, modules[..k]) && !Fits(tables, modules[k])
    ensures !AllUnclashing(modules)
  {
    var kind: Kind :| After(kind, tables, modules[k]).None?;
    HoldsClash(kind, TableOf(kind, tables), modules, k);
  }

  lemma NothingHolds(modules: seq<Module>)
    ensures AllHold(Tables(map[], map[], map[], map[]), modules[..0])
  {
    assert modules[..0] == [];
  }

  lemma WholeHolds(tables: Tables, modules: seq<Module>)
    requires AllHold(tables, modules[..|modules|])
    ensures AllUnclashing(modules)
  {
    assert modules[..|modules|] == modules;
    AllHoldIsUnclashing(tables, modules);
  }

  /** The validator accepts exactly the well-formed lists of modules. */
  method ValidateLoadedModules(sdk: Sdk, modules: seq<Module>, workbench: string) returns (ok: bool)
    ensures ok <==> WellFormed(sdk, workbench, modules)
  {
    if !sdk.parses(workbench) { return false; }
    var tables := Tables(map[], map[], map[], map[]);
    NothingHolds(modules);
    for k := 0 to |modules|
      invariant AllHold(tables, modules[..k])
      invariant forall i :: 0 <= i < k ==> LocalOk(sdk, workbench, modules[i])
    {
      AllTurnsOkIff(sdk, workbench, modules[k], tables);
      var fine, next := CheckModule(sdk, workbench, modules[k], tables);
      if !fine {
        if LocalOk(sdk, workbench, modules[k]) { TurnClashes(tables, modules, k); }
        return false;
      }
      TurnHolds(tables, modules, k, next);
      tables := next;
    }
    WholeHolds(tables, modules);
    return true;
  }
}
