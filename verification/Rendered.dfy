/**
 What is configured for a hosted environment (scripts/render-environment-config.ts, lines
 12-172, and scripts/configure-environment-secrets-core.ts, lines 12-62), and that it
 passes the check. The spelling of the variables, URL parsing and the text of the
 OAuth providers are parameters.
 */
module Rendered {
  import opened Text
  import opened EnvironmentSet
  import opened FlyConfig
  import opened FlyTemplate
  import opened Hosted
  import opened Promotion

  // ----- secrets

  /** The values of the secret roles, and of the observability secrets. */
  datatype ProviderSecrets = ProviderSecrets(roles: Secrets, sentryDsn: string, sentryAuthToken: string)

  function WorkerSecrets(v: ProviderSecrets): map<Variable, string> {
    map[
      FacadeSigningSecret := v.roles.facadeSigning,
      RunnerSigningSecret := v.roles.runnerSigning,
      CallbackSigningSecret := v.roles.callbackSigning,
      AgentConnectionSecret := v.roles.agentConnection,
      OperatorAlertSigningSecret := v.roles.operatorAlertSigning,
      LanggraphUpstreamToken := v.roles.langgraphProxy,
      WorkosApiKey := v.roles.vault,
      OpenrouterApiKey := v.roles.openrouter,
      SentryDsn := v.sentryDsn]
  }

  function FlySecrets(v: ProviderSecrets): seq<(Variable, string)> {
    [(RunnerSigningSecret, v.roles.runnerSigning),
     (CallbackSigningSecret, v.roles.callbackSigning),
     (LanggraphProxyToken, v.roles.langgraphProxy),
     (OpenrouterApiKey, v.roles.openrouter),
     (SentryDsn, v.sentryDsn)]
  }

  function VercelSecrets(v: ProviderSecrets): map<Variable, string> {
    map[
      FacadeSigningSecret := v.roles.facadeSigning,
      OperatorAlertSigningSecret := v.roles.operatorAlertSigning,
      WorkosApiKey := v.roles.vault,
      WorkosCookiePassword := v.roles.workosCookie,
      SentryDsn := v.sentryDsn,
      PublicSentryDsn := v.sentryDsn,
      SentryAuthToken := v.sentryAuthToken]
  }

  function VercelVariables(m: Manifest): map<Variable, string> {
    map[
      WorkosClientId := m.workos.applicationId,
      PublicWorkosClientId := m.workos.applicationId,
      PublicWorkosRedirectUri := m.vercel.origin + "/auth/callback",
      ControlPlaneUrl := m.cloudflare.origin,
      LanggraphApiUrl := m.fly.origin,
      PublicAssistantId := "agent",
      WorkbenchEnvironment := m.target.Name(),
      AlertConformanceMode := BoolText(m.target == EnvironmentSet.Acceptance),
      SentryOrg := "t23",
      SentryProject := "assistant-mk1",
      SentryEnvironment := m.target.Name(),
      PublicSentryEnvironment := m.target.Name(),
      SentryTraces := "0.02",
      PublicSentryTraces := "0.02",
      PublicSessionReplays := "0",
      PublicErrorReplays := "0"]
  }

  // ----- the rendered configuration

  predicate RetainedOn(stage: Stage) {
    stage != Disabled
  }

  predicate ConnectionsOn(stage: Stage) {
    stage == Connections || stage == Mutations
  }

  predicate IsCommit(sha: string) {
    |sha| == 40 && forall i :: 0 <= i < 40 ==> IsDigit(sha[i]) || 'a' <= sha[i] <= 'f'
  }

  function WranglerVars(m: Manifest, target: EnvironmentSet.Target, stage: Stage, sha: string, providers: string): map<Variable, string> {
    map[
      LanggraphUpstreamUrl := m.fly.origin,
      LanggraphAssistantId := "agent",
      OpenrouterModel := "deepseek/deepseek-v4-flash",
      OpenrouterSiteUrl := m.vercel.origin,
      OpenrouterAppName := "assistant-mk1-" + target.Name() + "-cloudflare-chat",
      CallbackUrl := m.cloudflare.origin + "/workbench/run-callbacks",
      RunnerTransport := "fly",
      RunnerUrl := m.fly.origin + "/workbench/tool-runners/invocations",
      AlertWebhookUrl := m.vercel.origin + "/api/workbench/operator-alerts/ingest",
      ConformanceMode := BoolText(m.conformanceMode),
      RetainedDataEnabled := BoolText(RetainedOn(stage)),
      ConnectionsEnabled := BoolText(ConnectionsOn(stage)),
      MutationsEnabled := BoolText(stage == Mutations),
      PushEnabled := "false",
      VaultBackend := VaultText(m.vaultBackend),
      ReleaseSha := sha,
      SentryEnvironment := target.Name(),
      SentryTraces := "0.02"]
    + if m.conformanceMode then map[OauthProviders := providers] else map[]
  }

  /** How the variables are spelled: each its own way, in capitals. */
  ghost predicate Spells(spell: Variable -> string) {
    && (forall v :: IsName(spell(v)))
    && forall v, w :: spell(v) == spell(w) ==> v == w
  }

  /** The variables of the `[env]` section, in their order. */
  const FlyVariables := [LanggraphPort, LanggraphUpstreamUrl, OpenrouterAppName, OpenrouterModel, OpenrouterSiteUrl,
                         ConformanceMode, CallbackOrigin, ReleaseSha]

  function FlyValues(m: Manifest, target: EnvironmentSet.Target, sha: string): (values: seq<string>)
    ensures |values| == 8
  {
    ["2024", "http://127.0.0.1:2024", "assistant-mk1-" + target.Name() + "-runner", "deepseek/deepseek-v4-flash",
     m.fly.origin, BoolText(m.conformanceMode), m.cloudflare.origin, sha]
  }

  function EntriesOf(names: seq<Variable>, values: seq<string>, spell: Variable -> string): (entries: seq<FlyConfig.Entry>)
    requires |names| == |values|
    ensures |entries| == |names|
    ensures forall i :: 0 <= i < |names| ==> entries[i] == FlyConfig.Entry(spell(names[i]), values[i])
  {
    seq(|names|, i requires 0 <= i < |names| => FlyConfig.Entry(spell(names[i]), values[i]))
  }

  function FlyEntries(m: Manifest, target: EnvironmentSet.Target, sha: string, spell: Variable -> string): seq<FlyConfig.Entry> {
    EntriesOf(FlyVariables, FlyValues(m, target, sha), spell)
  }

  /** The two files; the rest of the Wrangler file plays no part in the check. */
  datatype Files = Files(vars: map<Variable, string>, fly: string)

  /** `renderEnvironmentConfig` on a manifest whose references are resolved; no value if
      the program throws. */
  function Render(m: Manifest, target: EnvironmentSet.Target, bootstrap: bool, stage: Stage, sha: string,
                  isUrl: string -> bool, providers: string, spell: Variable -> string): Option<Files>
  {
    if bootstrap && stage != Disabled then None
    else if !isUrl(m.fly.origin) then None
    else if sha != "development" && !IsCommit(sha) then None
    else Some(Files(WranglerVars(m, target, stage, sha, providers), RenderFly(m.fly.appName, FlyEntries(m, target, sha, spell))))
  }

  // ----- what the providers tell of it

  /** The variables named in an inventory that was read from text. */
  function ReadBack(names: FlyConfig.Inventory, spell: Variable -> string): Held {
    map v: Variable | spell(v) in names :: names[spell(v)]
  }

  function SpelledNames(secrets: seq<(Variable, string)>, spell: Variable -> string): (names: seq<string>)
    ensures |names| == |secrets| && forall i :: 0 <= i < |secrets| ==> names[i] == spell(secrets[i].0)
  {
    seq(|secrets|, i requires 0 <= i < |secrets| => spell(secrets[i].0))
  }

  /** Names only: no provider tells the value of a secret, and Vercel tells none at all. */
  function NamesOnly(values: map<Variable, string>): Held {
    map n | n in values :: None
  }

  function WithValues(values: map<Variable, string>): Held {
    map n | n in values :: Some(values[n])
  }

  function VercelHeld(m: Manifest, v: ProviderSecrets): Held {
    NamesOnly(VercelSecrets(v)) + NamesOnly(VercelVariables(m))
  }

  function CloudflareHeld(files: Files, v: ProviderSecrets): Held {
    NamesOnly(WorkerSecrets(v)) + WithValues(files.vars)
  }

  function FlyHeld(files: Files, v: ProviderSecrets, spell: Variable -> string): Held {
    ReadBack(ReadInventory(files.fly, SpelledNames(FlySecrets(v), spell)), spell)
  }

  /** The inventory where every provider tells what was configured. */
  function Deployed(m: Manifest, files: Files, v: ProviderSecrets, spell: Variable -> string): Hosted.Inventory {
    (s: Service) => HeldBy(s, m, files, v, spell)
  }

  function HeldBy(s: Service, m: Manifest, files: Files, v: ProviderSecrets, spell: Variable -> string): Held {
    match s
    case OnVercel => VercelHeld(m, v)
    case OnCloudflare => CloudflareHeld(files, v)
    case OnFly => FlyHeld(files, v, spell)
  }

  // ----- the Fly section

  ghost predicate NamesDistinct(entries: seq<FlyConfig.Entry>) {
    forall i, j :: 0 <= i < j < |entries| ==> entries[i].name != entries[j].name
  }

  lemma {:induction false} NotDefined(entries: seq<FlyConfig.Entry>, name: string)
    requires forall i :: 0 <= i < |entries| ==> entries[i].name != name
    ensures name !in EnvOf(entries)
  {
    if entries != [] { NotDefined(entries[..|entries| - 1], name); }
  }

  lemma {:induction false} DefinedAt(entries: seq<FlyConfig.Entry>, i: nat)
    requires NamesDistinct(entries) && i < |entries| && OneLine(entries[i].value)
    ensures entries[i].name in EnvOf(entries) && EnvOf(entries)[entries[i].name] == Some(entries[i].value)
  {
    if i < |entries| - 1 {
      var front := entries[..|entries| - 1];
      assert forall k :: 0 <= k < |front| ==> front[k] == entries[k];
      DefinedAt(front, i);
    }
  }

  lemma {:induction false} SecretsAdded(names: FlyConfig.Inventory, secrets: seq<string>, name: string)
    ensures var r := AddSecrets(names, secrets);
      && (name in secrets ==> name in r && r[name] == None)
      && (name !in secrets ==> (name in r <==> name in names) && (name in names ==> r[name] == names[name]))
  {
    if secrets != [] {
      SecretsAdded(names, secrets[..|secrets| - 1], name);
      assert secrets == secrets[..|secrets| - 1] + [secrets[|secrets| - 1]];
    }
  }

  lemma ShaOnOneLine(sha: string)
    requires sha == "development" || IsCommit(sha)
    ensures OneLine(sha)
  {
  }

  predicate NoBreaks(m: Manifest) {
    '\n' !in m.fly.appName && '\n' !in m.fly.origin && '\n' !in m.cloudflare.origin
  }

  /** Entries for distinct variables, rendered and read again: a value on one line is read
      as it is, and no other variable is defined. */
  lemma EntriesRead(appName: string, names: seq<Variable>, values: seq<string>, spell: Variable -> string)
    requires Spells(spell) && |names| == |values| && '\n' !in appName
    requires forall i, j :: 0 <= i < j < |names| ==> names[i] != names[j]
    requires forall i :: 0 <= i < |values| ==> '\n' !in values[i]
    ensures var read := ReadInventory(RenderFly(appName, EntriesOf(names, values, spell)), []);
      && (forall i :: 0 <= i < |names| && OneLine(values[i]) ==> spell(names[i]) in read && read[spell(names[i])] == Some(values[i]))
      && forall v :: v !in names ==> spell(v) !in read
  {
    var entries := EntriesOf(names, values, spell);
    assert NamesDistinct(entries) && Writable(entries);
    RenderedReads(appName, entries);
    forall i | 0 <= i < |names| && OneLine(values[i])
      ensures spell(names[i]) in EnvOf(entries) && EnvOf(entries)[spell(names[i])] == Some(values[i])
    {
      DefinedAt(entries, i);
    }
    forall v | v !in names ensures spell(v) !in EnvOf(entries) {
      NotDefined(entries, spell(v));
    }
  }

  lemma FixedValuesUnbroken(target: EnvironmentSet.Target)
    ensures '\n' !in "2024" && '\n' !in "http://127.0.0.1:2024" && '\n' !in "deepseek/deepseek-v4-flash"
    ensures '\n' !in "assistant-mk1-" + target.Name() + "-runner"
  {
    assert Printable("assistant-mk1-") && Printable(target.Name()) && Printable("-runner");
  }

  lemma BoolOnOneLine(b: bool)
    ensures '\n' !in BoolText(b) && OneLine(BoolText(b))
  {
  }

  lemma FlyValuesPlain(m: Manifest, target: EnvironmentSet.Target, sha: string)
    requires NoBreaks(m) && OneLine(sha)
    ensures forall i :: 0 <= i < 8 ==> '\n' !in FlyValues(m, target, sha)[i]
  {
    FixedValuesUnbroken(target);
    BoolOnOneLine(m.conformanceMode);
  }

  lemma FlyVariablesDistinct()
    ensures |FlyVariables| == 8 && forall i, j :: 0 <= i < j < 8 ==> FlyVariables[i] != FlyVariables[j]
  {
  }

  /** The Fly file read back: the two values checked are as rendered, whatever the origins
      hold, and no variable outside the section's own is defined. */
  lemma FlyFileReads(m: Manifest, target: EnvironmentSet.Target, sha: string, spell: Variable -> string)
    requires Spells(spell) && NoBreaks(m) && OneLine(sha)
    ensures var names := ReadInventory(RenderFly(m.fly.appName, FlyEntries(m, target, sha, spell)), []);
      && spell(ConformanceMode) in names && names[spell(ConformanceMode)] == Some(BoolText(m.conformanceMode))
      && spell(ReleaseSha) in names && names[spell(ReleaseSha)] == Some(sha)
      && forall v :: v !in FlyVariables ==> spell(v) !in names
  {
    var values := FlyValues(m, target, sha);
    FlyVariablesDistinct();
    FlyValuesPlain(m, target, sha);
    BoolOnOneLine(m.conformanceMode);
    EntriesRead(m.fly.appName, FlyVariables, values, spell);
    assert FlyVariables[5] == ConformanceMode && values[5] == BoolText(m.conformanceMode);
    assert FlyVariables[7] == ReleaseSha && values[7] == sha;
  }

  // ----- each service against its policy

  predicate HasValue(held: Held, name: Variable, value: string) {
    name in held && held[name] == Some(value)
  }

  /** Forbidden on every service. */
  predicate IsCommon(n: Variable) {
    n.DevToken? || n.AllowLocalDevIdentity? || n.DevUserId? || n.DevWorkspaceId? || n.ExecutorToken? || n.ExecutorUrl?
    || n.SharedSecret? || n.LocalIdentity?
  }

  lemma CommonAre(i: nat)
    requires i < |CommonForbidden()|
    ensures IsCommon(CommonForbidden()[i])
  {
  }

  lemma VercelSecretNames(v: ProviderSecrets)
    ensures var s := VercelSecrets(v);
      && FacadeSigningSecret in s && OperatorAlertSigningSecret in s && WorkosApiKey in s && WorkosCookiePassword in s
      && SentryDsn in s && PublicSentryDsn in s && SentryAuthToken in s
  {
  }

  lemma VercelSecretsAllowed(v: ProviderSecrets)
    ensures forall n :: n in VercelSecrets(v) ==> !IsCommon(n) && n != VaultBackend && n != ConformanceMode
  {
  }

  lemma VercelVariableNames(m: Manifest)
    ensures var s := VercelVariables(m);
      && WorkosClientId in s && PublicWorkosClientId in s && PublicWorkosRedirectUri in s && ControlPlaneUrl in s
      && LanggraphApiUrl in s && PublicAssistantId in s && WorkbenchEnvironment in s && AlertConformanceMode in s
  {
  }

  lemma NotVercelVariable(m: Manifest, n: Variable)
    requires IsCommon(n) || n == VaultBackend || n == ConformanceMode
    ensures n !in VercelVariables(m)
  {
  }

  lemma VercelVariablesAllowed(m: Manifest)
    ensures forall n :: n in VercelVariables(m) ==> !IsCommon(n) && n != VaultBackend && n != ConformanceMode
  {
    forall n | IsCommon(n) || n == VaultBackend || n == ConformanceMode ensures n !in VercelVariables(m) {
      NotVercelVariable(m, n);
    }
  }

  lemma WorkerSecretNames(v: ProviderSecrets)
    ensures var s := WorkerSecrets(v);
      && FacadeSigningSecret in s && RunnerSigningSecret in s && CallbackSigningSecret in s && AgentConnectionSecret in s
      && OperatorAlertSigningSecret in s && LanggraphUpstreamToken in s && WorkosApiKey in s && OpenrouterApiKey in s && SentryDsn in s
      && forall n :: n in s ==> !IsCommon(n)
  {
  }

  lemma WranglerNames(m: Manifest, target: EnvironmentSet.Target, stage: Stage, sha: string, providers: string)
    ensures forall n :: n in WranglerVars(m, target, stage, sha, providers) ==> !IsCommon(n)
  {
  }

  predicate HasText(vars: map<Variable, string>, name: Variable, value: string) {
    name in vars && vars[name] == value
  }

  /** The Worker's variables that are checked, as rendered. */
  predicate AsRendered(vars: map<Variable, string>, m: Manifest, stage: Stage, sha: string) {
    && HasText(vars, VaultBackend, VaultText(m.vaultBackend)) && HasText(vars, ConformanceMode, BoolText(m.conformanceMode))
    && HasText(vars, RetainedDataEnabled, BoolText(RetainedOn(stage))) && HasText(vars, ConnectionsEnabled, BoolText(ConnectionsOn(stage)))
    && HasText(vars, MutationsEnabled, BoolText(stage == Mutations)) && HasText(vars, PushEnabled, "false") && HasText(vars, ReleaseSha, sha)
  }

  lemma WranglerAsRendered(m: Manifest, target: EnvironmentSet.Target, stage: Stage, sha: string, providers: string)
    ensures AsRendered(WranglerVars(m, target, stage, sha, providers), m, stage, sha)
  {
  }

  lemma VercelSoundOf(a: map<Variable, string>, b: map<Variable, string>)
    requires FacadeSigningSecret in a && OperatorAlertSigningSecret in a && WorkosApiKey in a && WorkosCookiePassword in a
    requires SentryDsn in a && PublicSentryDsn in a && SentryAuthToken in a
    requires WorkosClientId in b && PublicWorkosClientId in b && PublicWorkosRedirectUri in b && ControlPlaneUrl in b
    requires LanggraphApiUrl in b && PublicAssistantId in b && WorkbenchEnvironment in b && AlertConformanceMode in b
    requires forall n :: n in a || n in b ==> !IsCommon(n) && n != VaultBackend && n != ConformanceMode
    ensures ServiceSound(OnVercel, NamesOnly(a) + NamesOnly(b))
  {
    var held := NamesOnly(a) + NamesOnly(b);
    forall i | 0 <= i < |Forbidden(OnVercel)| ensures Forbidden(OnVercel)[i] !in held {
      if i < 8 { CommonAre(i); }
    }
  }

  lemma CloudflareSoundOf(a: map<Variable, string>, b: map<Variable, string>, m: Manifest, stage: Stage, sha: string)
    requires FacadeSigningSecret in a && RunnerSigningSecret in a && CallbackSigningSecret in a && AgentConnectionSecret in a
    requires OperatorAlertSigningSecret in a && LanggraphUpstreamToken in a && WorkosApiKey in a && OpenrouterApiKey in a && SentryDsn in a
    requires AsRendered(b, m, stage, sha)
    requires forall n :: n in a || n in b ==> !IsCommon(n)
    ensures ServiceSound(OnCloudflare, NamesOnly(a) + WithValues(b))
  {
    var held := NamesOnly(a) + WithValues(b);
    forall i | 0 <= i < |Forbidden(OnCloudflare)| ensures Forbidden(OnCloudflare)[i] !in held {
      CommonAre(i);
    }
  }

  lemma SecretsLast(config: string, secrets: seq<string>, name: string)
    ensures var read, base := ReadInventory(config, secrets), ReadInventory(config, []);
      && (name in secrets ==> name in read && read[name] == None)
      && (name !in secrets ==> (name in read <==> name in base) && (name in base ==> read[name] == base[name]))
  {
    SecretsAdded(ReadInventory(config, []), secrets, name);
  }

  const FlySecretVariables := [RunnerSigningSecret, CallbackSigningSecret, LanggraphProxyToken, OpenrouterApiKey, SentryDsn]

  lemma SpelledIff(v: ProviderSecrets, spell: Variable -> string, n: Variable)
    requires Spells(spell)
    ensures spell(n) in SpelledNames(FlySecrets(v), spell) <==> n in FlySecretVariables
  {
    var names := SpelledNames(FlySecrets(v), spell);
    assert forall i :: 0 <= i < 5 ==> names[i] == spell(FlySecretVariables[i]);
    if n in FlySecretVariables {
      var i :| 0 <= i < 5 && FlySecretVariables[i] == n;
      assert names[i] == spell(n);
    }
  }

  /** A secret of the Fly application hides a variable of the same name. */
  lemma FlyHolds(files: Files, v: ProviderSecrets, spell: Variable -> string, n: Variable)
    requires Spells(spell)
    ensures var held, base := FlyHeld(files, v, spell), ReadInventory(files.fly, []);
      if n in FlySecretVariables then n in held
      else (n in held <==> spell(n) in base) && (n in held ==> held[n] == base[spell(n)])
  {
    SpelledIff(v, spell, n);
    SecretsLast(files.fly, SpelledNames(FlySecrets(v), spell), spell(n));
  }

  lemma FlyHoldsAll(held: Held)
    requires RunnerSigningSecret in held && CallbackSigningSecret in held && LanggraphProxyToken in held && OpenrouterApiKey in held
    requires SentryDsn in held && ConformanceMode in held && ReleaseSha in held
    ensures HoldsAll(held, Hosted.Required(OnFly))
  {
  }

  lemma ForbiddenOnFly(n: Variable)
    requires n in Forbidden(OnFly)
    ensures n !in FlySecretVariables && n !in FlyVariables
  {
  }

  lemma FlySoundOf(held: Held, m: Manifest, sha: string)
    requires forall n :: n in FlySecretVariables ==> n in held
    requires HasValue(held, ConformanceMode, BoolText(m.conformanceMode)) && HasValue(held, ReleaseSha, sha)
    requires forall n :: n in held ==> n in FlySecretVariables || n in FlyVariables
    ensures ServiceSound(OnFly, held)
  {
    assert FlySecretVariables[0] in held && FlySecretVariables[1] in held && FlySecretVariables[2] in held;
    assert FlySecretVariables[3] in held && FlySecretVariables[4] in held;
    FlyHoldsAll(held);
    forall i | 0 <= i < |Forbidden(OnFly)| ensures Forbidden(OnFly)[i] !in held {
      ForbiddenOnFly(Forbidden(OnFly)[i]);
    }
  }

  lemma FlyNames(m: Manifest, target: EnvironmentSet.Target, sha: string, files: Files, v: ProviderSecrets, spell: Variable -> string, n: Variable)
    requires Spells(spell) && NoBreaks(m) && OneLine(sha)
    requires files.fly == RenderFly(m.fly.appName, FlyEntries(m, target, sha, spell))
    ensures n in FlySecretVariables ==> n in FlyHeld(files, v, spell)
    ensures n in FlyHeld(files, v, spell) ==> n in FlySecretVariables || n in FlyVariables
  {
    FlyFileReads(m, target, sha, spell);
    FlyHolds(files, v, spell, n);
  }

  lemma NotFlySecrets()
    ensures ConformanceMode !in FlySecretVariables && ReleaseSha !in FlySecretVariables
  {
  }

  lemma FlyAsRendered(m: Manifest, target: EnvironmentSet.Target, sha: string, files: Files, v: ProviderSecrets, spell: Variable -> string)
    requires Spells(spell) && NoBreaks(m) && OneLine(sha)
    requires files.fly == RenderFly(m.fly.appName, FlyEntries(m, target, sha, spell))
    ensures var held := FlyHeld(files, v, spell);
      HasValue(held, ConformanceMode, BoolText(m.conformanceMode)) && HasValue(held, ReleaseSha, sha)
  {
    FlyFileReads(m, target, sha, spell);
    NotFlySecrets();
    FlyHolds(files, v, spell, ConformanceMode);
    FlyHolds(files, v, spell, ReleaseSha);
  }

  // ----- what is configured passes the check

  /** The stage, the modes and the commit are those the policy asks for. */
  predicate Ready(m: Manifest, stage: Stage, sha: string, commit: string) {
    && stage == (if m.target == EnvironmentSet.Acceptance then Mutations else Connections)
    && m.conformanceMode == (m.target == EnvironmentSet.Acceptance)
    && m.vaultBackend == (if m.target == Local then Memory else WorkOs)
    && sha == commit
  }

  lemma TextsDiffer()
    ensures "true" != "false" && "memory" != "workos"
  {
    assert |"true"| == 4 && |"false"| == 5;
    assert "memory"[0] == 'm' && "workos"[0] == 'w';
  }

  lemma BoolTextSame(a: bool, b: bool)
    ensures BoolText(a) == BoolText(b) <==> a == b
  {
    TextsDiffer();
  }

  lemma MeetsIff(held: Held, d: Demand, value: string)
    requires d.service != OnVercel && HasValue(held, d.name, value)
    ensures Meets(held, d) <==> value == d.value
  {
  }

  predicate MeetsAt(inventory: Hosted.Inventory, demands: seq<Demand>, i: nat) {
    i < |demands| && Meets(inventory(demands[i].service), demands[i])
  }

  lemma MeetsNine(inventory: Hosted.Inventory, demands: seq<Demand>)
    requires |demands| == 14 && forall i :: 9 <= i < 14 ==> MeetsAt(inventory, demands, i)
    ensures MeetsAll(inventory, demands)
      <==> MeetsAt(inventory, demands, 0) && MeetsAt(inventory, demands, 1) && MeetsAt(inventory, demands, 2)
           && MeetsAt(inventory, demands, 3) && MeetsAt(inventory, demands, 4) && MeetsAt(inventory, demands, 5)
           && MeetsAt(inventory, demands, 6) && MeetsAt(inventory, demands, 7) && MeetsAt(inventory, demands, 8)
  {
    assert forall i :: 0 <= i < 14 ==> (MeetsAt(inventory, demands, i) <==> Meets(inventory(demands[i].service), demands[i]));
  }

  /** The flags demanded are those of the stage demanded. */
  lemma StageIff(stage: Stage, acceptance: bool)
    ensures BoolText(RetainedOn(stage)) == "true" && BoolText(ConnectionsOn(stage)) == "true"
         && BoolText(stage == Mutations) == BoolText(acceptance)
      <==> stage == if acceptance then Mutations else Connections
  {
    TextsDiffer();
  }

  lemma VaultIff(v: Vault, target: EnvironmentSet.Target)
    ensures VaultText(v) == (if target == Local then "memory" else "workos") <==> v == (if target == Local then Memory else WorkOs)
  {
    TextsDiffer();
  }

  predicate HeldAsRendered(held: Held, m: Manifest, stage: Stage, sha: string) {
    && HasValue(held, VaultBackend, VaultText(m.vaultBackend)) && HasValue(held, ConformanceMode, BoolText(m.conformanceMode))
    && HasValue(held, RetainedDataEnabled, BoolText(RetainedOn(stage))) && HasValue(held, ConnectionsEnabled, BoolText(ConnectionsOn(stage)))
    && HasValue(held, MutationsEnabled, BoolText(stage == Mutations)) && HasValue(held, PushEnabled, "false") && HasValue(held, ReleaseSha, sha)
  }

  /** What Cloudflare must hold is held exactly if the deployment is ready. */
  lemma CloudflareMeets(m: Manifest, stage: Stage, sha: string, commit: string, held: Held, demands: seq<Demand>, i: nat, value: string)
    requires demands == Demands(m, commit) && HeldAsRendered(held, m, stage, sha) && i < 7
    requires value == [VaultText(m.vaultBackend), BoolText(m.conformanceMode), BoolText(RetainedOn(stage)),
                       BoolText(ConnectionsOn(stage)), BoolText(stage == Mutations), "false", sha][i]
    ensures Meets(held, demands[i]) <==> value == demands[i].value
  {
    MeetsIff(held, demands[i], value);
  }

  lemma CloudflareTextsIff(m: Manifest, stage: Stage, sha: string, commit: string, demands: seq<Demand>)
    requires demands == Demands(m, commit)
    ensures VaultText(m.vaultBackend) == demands[0].value && BoolText(m.conformanceMode) == demands[1].value
         && BoolText(RetainedOn(stage)) == demands[2].value && BoolText(ConnectionsOn(stage)) == demands[3].value
         && BoolText(stage == Mutations) == demands[4].value && "false" == demands[5].value && sha == demands[6].value
      <==> Ready(m, stage, sha, commit)
  {
    VaultIff(m.vaultBackend, m.target);
    BoolTextSame(m.conformanceMode, m.target == EnvironmentSet.Acceptance);
    StageIff(stage, m.target == EnvironmentSet.Acceptance);
  }

  lemma CloudflareMeetsIff(m: Manifest, stage: Stage, sha: string, commit: string, held: Held, demands: seq<Demand>)
    requires demands == Demands(m, commit) && HeldAsRendered(held, m, stage, sha)
    ensures Meets(held, demands[0]) && Meets(held, demands[1]) && Meets(held, demands[2]) && Meets(held, demands[3])
         && Meets(held, demands[4]) && Meets(held, demands[5]) && Meets(held, demands[6])
      <==> Ready(m, stage, sha, commit)
  {
    CloudflareMeets(m, stage, sha, commit, held, demands, 0, VaultText(m.vaultBackend));
    CloudflareMeets(m, stage, sha, commit, held, demands, 1, BoolText(m.conformanceMode));
    CloudflareMeets(m, stage, sha, commit, held, demands, 2, BoolText(RetainedOn(stage)));
    CloudflareMeets(m, stage, sha, commit, held, demands, 3, BoolText(ConnectionsOn(stage)));
    CloudflareMeets(m, stage, sha, commit, held, demands, 4, BoolText(stage == Mutations));
    CloudflareMeets(m, stage, sha, commit, held, demands, 5, "false");
    CloudflareMeets(m, stage, sha, commit, held, demands, 6, sha);
    CloudflareTextsIff(m, stage, sha, commit, demands);
  }

  lemma FlyMeets(m: Manifest, stage: Stage, sha: string, commit: string, held: Held, demands: seq<Demand>)
    requires demands == Demands(m, commit) && Ready(m, stage, sha, commit)
    requires HasValue(held, ConformanceMode, BoolText(m.conformanceMode)) && HasValue(held, ReleaseSha, sha)
    ensures Meets(held, demands[7]) && Meets(held, demands[8])
  {
  }

  lemma VercelMeets(m: Manifest, commit: string, held: Held, demands: seq<Demand>, i: nat)
    requires demands == Demands(m, commit) && 9 <= i < 14
    requires WorkbenchEnvironment in held && AlertConformanceMode in held && ControlPlaneUrl in held
    requires LanggraphApiUrl in held && PublicWorkosRedirectUri in held
    requires forall n :: n in held ==> held[n] == None
    ensures demands[i].service == OnVercel && Meets(held, demands[i])
  {
  }

  lemma DemandServices(m: Manifest, commit: string, demands: seq<Demand>)
    requires demands == Demands(m, commit)
    ensures |demands| == 14 && (forall i :: 0 <= i < 7 ==> demands[i].service == OnCloudflare)
    ensures demands[7].service == OnFly && demands[8].service == OnFly
  {
  }

  /** The values demanded are met exactly if the deployment is ready. */
  lemma DemandsMetIff(m: Manifest, stage: Stage, sha: string, commit: string, inventory: Hosted.Inventory, demands: seq<Demand>)
    requires demands == Demands(m, commit) && HeldAsRendered(inventory(OnCloudflare), m, stage, sha)
    requires HasValue(inventory(OnFly), ConformanceMode, BoolText(m.conformanceMode)) && HasValue(inventory(OnFly), ReleaseSha, sha)
    requires forall i :: 9 <= i < 14 ==> MeetsAt(inventory, demands, i)
    ensures MeetsAll(inventory, demands) <==> Ready(m, stage, sha, commit)
  {
    DemandServices(m, commit, demands);
    MeetsNine(inventory, demands);
    CloudflareMeetsIff(m, stage, sha, commit, inventory(OnCloudflare), demands);
    if Ready(m, stage, sha, commit) { FlyMeets(m, stage, sha, commit, inventory(OnFly), demands); }
  }

  // ----- all together

  lemma HeldIsRendered(a: map<Variable, string>, b: map<Variable, string>, m: Manifest, stage: Stage, sha: string)
    requires AsRendered(b, m, stage, sha)
    ensures HeldAsRendered(NamesOnly(a) + WithValues(b), m, stage, sha)
  {
  }

  lemma CloudflareReady(m: Manifest, target: EnvironmentSet.Target, stage: Stage, sha: string, providers: string, files: Files, v: ProviderSecrets)
    requires files.vars == WranglerVars(m, target, stage, sha, providers)
    ensures ServiceSound(OnCloudflare, CloudflareHeld(files, v)) && HeldAsRendered(CloudflareHeld(files, v), m, stage, sha)
  {
    WorkerSecretNames(v);
    WranglerNames(m, target, stage, sha, providers);
    WranglerAsRendered(m, target, stage, sha, providers);
    CloudflareSoundOf(WorkerSecrets(v), files.vars, m, stage, sha);
    HeldIsRendered(WorkerSecrets(v), files.vars, m, stage, sha);
  }

  lemma VercelReady(m: Manifest, v: ProviderSecrets)
    ensures ServiceSound(OnVercel, VercelHeld(m, v))
  {
    VercelSecretNames(v);
    VercelSecretsAllowed(v);
    VercelVariableNames(m);
    VercelVariablesAllowed(m);
    VercelSoundOf(VercelSecrets(v), VercelVariables(m));
  }

  lemma VercelDemandsMet(m: Manifest, v: ProviderSecrets, commit: string, i: nat)
    requires 9 <= i < 14
    ensures Demands(m, commit)[i].service == OnVercel && Meets(VercelHeld(m, v), Demands(m, commit)[i])
  {
    VercelVariableNames(m);
    VercelTells(VercelSecrets(v), VercelVariables(m));
    VercelMeets(m, commit, VercelHeld(m, v), Demands(m, commit), i);
  }

  lemma VercelTells(a: map<Variable, string>, b: map<Variable, string>)
    ensures var held := NamesOnly(a) + NamesOnly(b);
      (forall n :: n in held <==> n in a || n in b) && forall n :: n in held ==> held[n] == None
  {
  }

  lemma FlyReady(m: Manifest, target: EnvironmentSet.Target, sha: string, files: Files, v: ProviderSecrets, spell: Variable -> string)
    requires Spells(spell) && NoBreaks(m) && OneLine(sha)
    requires files.fly == RenderFly(m.fly.appName, FlyEntries(m, target, sha, spell))
    ensures var held := FlyHeld(files, v, spell);
      && ServiceSound(OnFly, held)
      && HasValue(held, ConformanceMode, BoolText(m.conformanceMode)) && HasValue(held, ReleaseSha, sha)
  {
    var held := FlyHeld(files, v, spell);
    forall n ensures n in FlySecretVariables ==> n in held
             ensures n in held ==> n in FlySecretVariables || n in FlyVariables
    {
      FlyNames(m, target, sha, files, v, spell, n);
    }
    FlyAsRendered(m, target, sha, files, v, spell);
    FlySoundOf(held, m, sha);
  }

  lemma PassesIff(m: Manifest, stage: Stage, sha: string, commit: string, inventory: Hosted.Inventory, demands: seq<Demand>)
    requires demands == Demands(m, commit) && AllSound(inventory)
    requires HeldAsRendered(inventory(OnCloudflare), m, stage, sha)
    requires HasValue(inventory(OnFly), ConformanceMode, BoolText(m.conformanceMode)) && HasValue(inventory(OnFly), ReleaseSha, sha)
    requires forall i :: 9 <= i < 14 ==> MeetsAt(inventory, demands, i)
    ensures Hosted.Failures(m, inventory, commit) == [] <==> Ready(m, stage, sha, commit)
  {
    AcceptedIffSound(m, inventory, commit);
    DemandsMetIff(m, stage, sha, commit, inventory, demands);
  }

  lemma VercelMeetsAll(m: Manifest, v: ProviderSecrets, commit: string, inventory: Hosted.Inventory, demands: seq<Demand>)
    requires inventory(OnVercel) == VercelHeld(m, v) && demands == Demands(m, commit)
    ensures forall i :: 9 <= i < 14 ==> MeetsAt(inventory, demands, i)
  {
    DemandServices(m, commit, demands);
    forall i | 9 <= i < 14 ensures MeetsAt(inventory, demands, i) {
      VercelDemandsMet(m, v, commit, i);
    }
  }

  lemma DeployedAt(s: Service, m: Manifest, files: Files, v: ProviderSecrets, spell: Variable -> string, inventory: Hosted.Inventory)
    requires inventory == Deployed(m, files, v, spell)
    ensures inventory(s) == HeldBy(s, m, files, v, spell)
  {
  }

  lemma DeployedServices(m: Manifest, files: Files, v: ProviderSecrets, spell: Variable -> string, inventory: Hosted.Inventory)
    requires inventory == Deployed(m, files, v, spell)
    ensures inventory(OnVercel) == VercelHeld(m, v) && inventory(OnCloudflare) == CloudflareHeld(files, v)
    ensures inventory(OnFly) == FlyHeld(files, v, spell)
  {
    DeployedAt(OnVercel, m, files, v, spell, inventory);
    DeployedAt(OnCloudflare, m, files, v, spell, inventory);
    DeployedAt(OnFly, m, files, v, spell, inventory);
  }

  /** What is rendered and configured passes the check of the hosted configuration exactly
      if the stage is the last one for acceptance and connections otherwise, conformance
      is on exactly for acceptance, the vault is the target's, and the commit rendered is
      the one expected: for every manifest without a line break in its Fly application
      name and its two origins, all secrets and every commit. */
  lemma DeployedPassesIff(m: Manifest, target: EnvironmentSet.Target, bootstrap: bool, stage: Stage, sha: string,
                          isUrl: string -> bool, providers: string, spell: Variable -> string, v: ProviderSecrets, commit: string)
    requires Spells(spell) && NoBreaks(m)
    requires Render(m, target, bootstrap, stage, sha, isUrl, providers, spell).Some?
    ensures var files := Render(m, target, bootstrap, stage, sha, isUrl, providers, spell).value;
      Hosted.Failures(m, Deployed(m, files, v, spell), commit) == [] <==> Ready(m, stage, sha, commit)
  {
    var files := Render(m, target, bootstrap, stage, sha, isUrl, providers, spell).value;
    var inventory := Deployed(m, files, v, spell);
    DeployedServices(m, files, v, spell, inventory);
    ShaOnOneLine(sha);
    VercelReady(m, v);
    CloudflareReady(m, target, stage, sha, providers, files, v);
    FlyReady(m, target, sha, files, v, spell);
    VercelMeetsAll(m, v, commit, inventory, Demands(m, commit));
    PassesIff(m, stage, sha, commit, inventory, Demands(m, commit));
  }
}
