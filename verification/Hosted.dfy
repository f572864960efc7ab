/**
 What a hosted environment must hold and the check of it
 (scripts/hosted-configuration-core.ts, lines 3-95 and 141-180). The environment
 variables are members of an enumeration; how they are spelled is a parameter.
 */
module Hosted {
  import opened Text
  import opened EnvironmentSet

  datatype Variable =
    // forbidden everywhere
    | DevToken | AllowLocalDevIdentity | DevUserId | DevWorkspaceId | ExecutorToken | ExecutorUrl | SharedSecret | LocalIdentity
    // secrets
    | FacadeSigningSecret | OperatorAlertSigningSecret | WorkosApiKey | WorkosCookiePassword | RunnerSigningSecret
    | CallbackSigningSecret | AgentConnectionSecret | LanggraphUpstreamToken | LanggraphProxyToken | OpenrouterApiKey
    | SentryDsn | PublicSentryDsn | SentryAuthToken
    // variables
    | WorkosClientId | PublicWorkosClientId | PublicWorkosRedirectUri | ControlPlaneUrl | LanggraphApiUrl
    | PublicAssistantId | WorkbenchEnvironment | AlertConformanceMode | AdminEmails | SentryOrg | SentryProject
    | SentryEnvironment | PublicSentryEnvironment | SentryTraces | PublicSentryTraces | PublicSessionReplays | PublicErrorReplays
    | VaultBackend | ConformanceMode | RetainedDataEnabled | ConnectionsEnabled | MutationsEnabled | PushEnabled | ReleaseSha
    | LanggraphUpstreamUrl | LanggraphAssistantId | OpenrouterModel | OpenrouterSiteUrl | OpenrouterAppName
    | CallbackUrl | RunnerTransport | RunnerUrl | AlertWebhookUrl | OauthProviders
    | LanggraphPort | CallbackOrigin

  datatype Service = OnVercel | OnCloudflare | OnFly

  /** The variables a service holds; the value of a secret is not known. */
  type Held = map<Variable, Option<string>>

  type Inventory = Service -> Held

  function CommonForbidden(): seq<Variable> {
    [DevToken, AllowLocalDevIdentity, DevUserId, DevWorkspaceId, ExecutorToken, ExecutorUrl, SharedSecret, LocalIdentity]
  }

  function Required(s: Service): seq<Variable> {
    match s
    case OnVercel =>
      [FacadeSigningSecret, OperatorAlertSigningSecret, WorkosApiKey, WorkosCookiePassword, WorkosClientId, PublicWorkosClientId,
       PublicWorkosRedirectUri, ControlPlaneUrl, LanggraphApiUrl, PublicAssistantId, WorkbenchEnvironment, AlertConformanceMode,
       SentryDsn, PublicSentryDsn, SentryAuthToken]
    case OnCloudflare =>
      [FacadeSigningSecret, RunnerSigningSecret, CallbackSigningSecret, AgentConnectionSecret, OperatorAlertSigningSecret,
       LanggraphUpstreamToken, WorkosApiKey, OpenrouterApiKey, SentryDsn, VaultBackend, ConformanceMode, RetainedDataEnabled,
       ConnectionsEnabled, MutationsEnabled, PushEnabled, ReleaseSha]
    case OnFly =>
      [RunnerSigningSecret, CallbackSigningSecret, LanggraphProxyToken, OpenrouterApiKey, SentryDsn, ConformanceMode, ReleaseSha]
  }

  function Forbidden(s: Service): seq<Variable> {
    match s
    case OnVercel => CommonForbidden() + [VaultBackend, ConformanceMode]
    case OnCloudflare => CommonForbidden()
    case OnFly => CommonForbidden() + [WorkosApiKey, VaultBackend]
  }

  function BoolText(b: bool): string {
    if b then "true" else "false"
  }

  function VaultText(v: Vault): string {
    if v == Memory then "memory" else "workos"
  }

  /** A value a service must hold. */
  datatype Demand = Demand(service: Service, name: Variable, value: string)

  /** The values the manifest asks for. */
  function Demands(m: Manifest, commit: string): seq<Demand> {
    var conformance := BoolText(m.target == Acceptance);
    [Demand(OnCloudflare, VaultBackend, if m.target == Local then "memory" else "workos"),
     Demand(OnCloudflare, ConformanceMode, conformance),
     Demand(OnCloudflare, RetainedDataEnabled, "true"),
     Demand(OnCloudflare, ConnectionsEnabled, "true"),
     Demand(OnCloudflare, MutationsEnabled, conformance),
     Demand(OnCloudflare, PushEnabled, "false"),
     Demand(OnCloudflare, ReleaseSha, commit),
     Demand(OnFly, ConformanceMode, conformance),
     Demand(OnFly, ReleaseSha, commit),
     Demand(OnVercel, WorkbenchEnvironment, m.target.Name()),
     Demand(OnVercel, AlertConformanceMode, conformance),
     Demand(OnVercel, ControlPlaneUrl, m.cloudflare.origin),
     Demand(OnVercel, LanggraphApiUrl, m.fly.origin),
     Demand(OnVercel, PublicWorkosRedirectUri, m.vercel.origin + "/auth/callback")]
  }

  datatype Failure =
    | MissingName(service: Service, name: Variable)
    | ForbiddenName(service: Service, name: Variable)
    | Mismatch(demand: Demand)

  /** A value held, or one Vercel does not tell. */
  predicate Meets(held: Held, d: Demand) {
    d.name in held && (held[d.name] == Some(d.value) || (held[d.name].None? && d.service == OnVercel))
  }

  function MissingIn(s: Service, held: Held, names: seq<Variable>): seq<Failure> {
    if names == [] then []
    else MissingIn(s, held, names[..|names| - 1]) + if names[|names| - 1] in held then [] else [MissingName(s, names[|names| - 1])]
  }

  function ForbiddenIn(s: Service, held: Held, names: seq<Variable>): seq<Failure> {
    if names == [] then []
    else ForbiddenIn(s, held, names[..|names| - 1]) + if names[|names| - 1] in held then [ForbiddenName(s, names[|names| - 1])] else []
  }

  function UnmetBy(inventory: Inventory, demands: seq<Demand>): seq<Failure> {
    if demands == [] then []
    else
      var d := demands[|demands| - 1];
      UnmetBy(inventory, demands[..|demands| - 1]) + if Meets(inventory(d.service), d) then [] else [Mismatch(d)]
  }

  function ServiceFailures(s: Service, held: Held): seq<Failure> {
    MissingIn(s, held, Required(s)) + ForbiddenIn(s, held, Forbidden(s))
  }

  function Failures(m: Manifest, inventory: Inventory, commit: string): seq<Failure> {
    ServiceFailures(OnVercel, inventory(OnVercel)) + ServiceFailures(OnCloudflare, inventory(OnCloudflare))
    + ServiceFailures(OnFly, inventory(OnFly)) + UnmetBy(inventory, Demands(m, commit))
  }

  method CheckRequired(s: Service, held: Held, names: seq<Variable>) returns (failures: seq<Failure>)
    ensures failures == MissingIn(s, held, names)
  {
    failures := [];
    for k := 0 to |names|
      invariant failures == MissingIn(s, held, names[..k])
    {
      assert names[..k + 1][..k] == names[..k];
      if names[k] !in held { failures := failures + [MissingName(s, names[k])]; }
    }
    assert names[..|names|] == names;
  }

  method CheckForbidden(s: Service, held: Held, names: seq<Variable>) returns (failures: seq<Failure>)
    ensures failures == ForbiddenIn(s, held, names)
  {
    failures := [];
    for k := 0 to |names|
      invariant failures == ForbiddenIn(s, held, names[..k])
    {
      assert names[..k + 1][..k] == names[..k];
      if names[k] in held { failures := failures + [ForbiddenName(s, names[k])]; }
    }
    assert names[..|names|] == names;
  }

  method CheckDemands(inventory: Inventory, demands: seq<Demand>) returns (failures: seq<Failure>)
    ensures failures == UnmetBy(inventory, demands)
  {
    failures := [];
    for k := 0 to |demands|
      invariant failures == UnmetBy(inventory, demands[..k])
    {
      assert demands[..k + 1][..k] == demands[..k];
      if !Meets(inventory(demands[k].service), demands[k]) { failures := failures + [Mismatch(demands[k])]; }
    }
    assert demands[..|demands|] == demands;
  }

  method CheckService(s: Service, held: Held) returns (failures: seq<Failure>)
    ensures failures == ServiceFailures(s, held)
  {
    failures := CheckRequired(s, held, Required(s));
    var found := CheckForbidden(s, held, Forbidden(s));
    failures := failures + found;
  }

  method ValidateHostedConfiguration(m: Manifest, inventory: Inventory, commit: string) returns (failures: seq<Failure>)
    ensures failures == Failures(m, inventory, commit)
  {
    failures := CheckService(OnVercel, inventory(OnVercel));
    var found := CheckService(OnCloudflare, inventory(OnCloudflare));
    failures := failures + found;
    found := CheckService(OnFly, inventory(OnFly));
    failures := failures + found;
    found := CheckDemands(inventory, Demands(m, commit));
    failures := failures + found;
  }

  // ----- what the failures mean

  ghost predicate HoldsAll(held: Held, names: seq<Variable>) {
    forall i :: 0 <= i < |names| ==> names[i] in held
  }

  ghost predicate HoldsNone(held: Held, names: seq<Variable>) {
    forall i :: 0 <= i < |names| ==> names[i] !in held
  }

  lemma {:induction false} NoneMissingIff(s: Service, held: Held, names: seq<Variable>)
    ensures MissingIn(s, held, names) == [] <==> HoldsAll(held, names)
  {
    if names != [] {
      NoneMissingIff(s, held, names[..|names| - 1]);
      assert forall i :: 0 <= i < |names| - 1 ==> names[..|names| - 1][i] == names[i];
    }
  }

  lemma {:induction false} NoneForbiddenIff(s: Service, held: Held, names: seq<Variable>)
    ensures ForbiddenIn(s, held, names) == [] <==> HoldsNone(held, names)
  {
    if names != [] {
      NoneForbiddenIff(s, held, names[..|names| - 1]);
      assert forall i :: 0 <= i < |names| - 1 ==> names[..|names| - 1][i] == names[i];
    }
  }

  lemma {:induction false} NoneUnmetIff(inventory: Inventory, demands: seq<Demand>)
    ensures UnmetBy(inventory, demands) == [] <==> forall i :: 0 <= i < |demands| ==> Meets(inventory(demands[i].service), demands[i])
  {
    if demands != [] {
      NoneUnmetIff(inventory, demands[..|demands| - 1]);
      assert forall i :: 0 <= i < |demands| - 1 ==> demands[..|demands| - 1][i] == demands[i];
    }
  }

  ghost predicate ServiceSound(s: Service, held: Held) {
    HoldsAll(held, Required(s)) && HoldsNone(held, Forbidden(s))
  }

  lemma ServiceSoundIff(s: Service, held: Held)
    ensures ServiceFailures(s, held) == [] <==> ServiceSound(s, held)
  {
    NoneMissingIff(s, held, Required(s));
    NoneForbiddenIff(s, held, Forbidden(s));
  }

  ghost predicate MeetsAll(inventory: Inventory, demands: seq<Demand>) {
    forall i :: 0 <= i < |demands| ==> Meets(inventory(demands[i].service), demands[i])
  }

  ghost predicate AllSound(inventory: Inventory) {
    && ServiceSound(OnVercel, inventory(OnVercel))
    && ServiceSound(OnCloudflare, inventory(OnCloudflare))
    && ServiceSound(OnFly, inventory(OnFly))
  }

  /** No failure exactly if every service holds what it must, nothing it must not, and the
      values asked for. */
  lemma AcceptedIffSound(m: Manifest, inventory: Inventory, commit: string)
    ensures Failures(m, inventory, commit) == [] <==> AllSound(inventory) && MeetsAll(inventory, Demands(m, commit))
  {
    ServiceSoundIff(OnVercel, inventory(OnVercel));
    ServiceSoundIff(OnCloudflare, inventory(OnCloudflare));
    ServiceSoundIff(OnFly, inventory(OnFly));
    NoneUnmetIff(inventory, Demands(m, commit));
  }
}
