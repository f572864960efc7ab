/**
 What a hosted environment must hold, variable by variable, and what is rendered for it, value by
 value (scripts/hosted-configuration-core.ts, lines 17-95 and 141-180;
 scripts/render-environment-config.ts, lines 15-172).
 */
module HostedRules {
  import opened Text
  import opened Characters
  import opened FlyConfig
  import opened FlyTemplate
  import opened Hosted
  import opened Rendered
  import EnvironmentSet
  import Promotion

  // ----- which services need a variable, and which may not have it

  predicate Needs(v: Variable, s: Service) {
    match v
    case FacadeSigningSecret => s.OnVercel? || s.OnCloudflare?
    case OperatorAlertSigningSecret => s.OnVercel? || s.OnCloudflare?
    case WorkosApiKey => s.OnVercel? || s.OnCloudflare?
    case WorkosCookiePassword => s.OnVercel?
    case WorkosClientId => s.OnVercel?
    case PublicWorkosClientId => s.OnVercel?
    case PublicWorkosRedirectUri => s.OnVercel?
    case ControlPlaneUrl => s.OnVercel?
    case LanggraphApiUrl => s.OnVercel?
    case PublicAssistantId => s.OnVercel?
    case WorkbenchEnvironment => s.OnVercel?
    case AlertConformanceMode => s.OnVercel?
    case PublicSentryDsn => s.OnVercel?
    case SentryAuthToken => s.OnVercel?
    case SentryDsn => true
    case RunnerSigningSecret => s.OnCloudflare? || s.OnFly?
    case CallbackSigningSecret => s.OnCloudflare? || s.OnFly?
    case OpenrouterApiKey => s.OnCloudflare? || s.OnFly?
    case ConformanceMode => s.OnCloudflare? || s.OnFly?
    case ReleaseSha => s.OnCloudflare? || s.OnFly?
    case AgentConnectionSecret => s.OnCloudflare?
    case LanggraphUpstreamToken => s.OnCloudflare?
    case VaultBackend => s.OnCloudflare?
    case RetainedDataEnabled => s.OnCloudflare?
    case ConnectionsEnabled => s.OnCloudflare?
    case MutationsEnabled => s.OnCloudflare?
    case PushEnabled => s.OnCloudflare?
    case LanggraphProxyToken => s.OnFly?
    case _ => false
  }

  predicate Bars(v: Variable, s: Service) {
    match v
    case DevToken => true
    case AllowLocalDevIdentity => true
    case DevUserId => true
    case DevWorkspaceId => true
    case ExecutorToken => true
    case ExecutorUrl => true
    case SharedSecret => true
    case LocalIdentity => true
    case VaultBackend => s.OnVercel? || s.OnFly?
    case ConformanceMode => s.OnVercel?
    case WorkosApiKey => s.OnFly?
    case _ => false
  }

  lemma NeedsIff(v: Variable, s: Service)
    ensures v in Hosted.Required(s) <==> Needs(v, s)
  {
    match s
    case OnVercel => VercelNeeds(v);
    case OnCloudflare => CloudflareNeeds(v);
    case OnFly => FlyNeeds(v);
  }

  lemma VercelNeeds(v: Variable)
    ensures v in Hosted.Required(OnVercel) <==> Needs(v, OnVercel)
  {
    VercelParts(v);
    VercelFirst(v);
    VercelSecond(v);
  }

  lemma VercelParts(v: Variable)
    ensures v in Hosted.Required(OnVercel) <==>
      || v in [FacadeSigningSecret, OperatorAlertSigningSecret, WorkosApiKey, WorkosCookiePassword, WorkosClientId,
               PublicWorkosClientId, PublicWorkosRedirectUri]
      || v in [ControlPlaneUrl, LanggraphApiUrl, PublicAssistantId, WorkbenchEnvironment, AlertConformanceMode,
               SentryDsn, PublicSentryDsn, SentryAuthToken]
  {
    var a := [FacadeSigningSecret, OperatorAlertSigningSecret, WorkosApiKey, WorkosCookiePassword, WorkosClientId,
              PublicWorkosClientId, PublicWorkosRedirectUri];
    var b := [ControlPlaneUrl, LanggraphApiUrl, PublicAssistantId, WorkbenchEnvironment, AlertConformanceMode,
              SentryDsn, PublicSentryDsn, SentryAuthToken];
    assert Hosted.Required(OnVercel) == a + b;
    InMore(v, a, b);
  }

  lemma VercelFirst(v: Variable)
    ensures v in [FacadeSigningSecret, OperatorAlertSigningSecret, WorkosApiKey, WorkosCookiePassword, WorkosClientId,
                  PublicWorkosClientId, PublicWorkosRedirectUri]
       <==> v.FacadeSigningSecret? || v.OperatorAlertSigningSecret? || v.WorkosApiKey? || v.WorkosCookiePassword?
            || v.WorkosClientId? || v.PublicWorkosClientId? || v.PublicWorkosRedirectUri?
  {
  }

  lemma VercelSecond(v: Variable)
    ensures v in [ControlPlaneUrl, LanggraphApiUrl, PublicAssistantId, WorkbenchEnvironment, AlertConformanceMode,
                  SentryDsn, PublicSentryDsn, SentryAuthToken]
       <==> v.ControlPlaneUrl? || v.LanggraphApiUrl? || v.PublicAssistantId? || v.WorkbenchEnvironment?
            || v.AlertConformanceMode? || v.SentryDsn? || v.PublicSentryDsn? || v.SentryAuthToken?
  {
  }

  lemma CloudflareNeeds(v: Variable)
    ensures v in Hosted.Required(OnCloudflare) <==> Needs(v, OnCloudflare)
  {
    CloudflareParts(v);
    CloudflareFirst(v);
    CloudflareSecond(v);
  }

  lemma CloudflareParts(v: Variable)
    ensures v in Hosted.Required(OnCloudflare) <==>
      || v in [FacadeSigningSecret, RunnerSigningSecret, CallbackSigningSecret, AgentConnectionSecret,
               OperatorAlertSigningSecret, LanggraphUpstreamToken, WorkosApiKey, OpenrouterApiKey]
      || v in [SentryDsn, VaultBackend, ConformanceMode, RetainedDataEnabled, ConnectionsEnabled, MutationsEnabled,
               PushEnabled, ReleaseSha]
  {
    var a := [FacadeSigningSecret, RunnerSigningSecret, CallbackSigningSecret, AgentConnectionSecret,
              OperatorAlertSigningSecret, LanggraphUpstreamToken, WorkosApiKey, OpenrouterApiKey];
    var b := [SentryDsn, VaultBackend, ConformanceMode, RetainedDataEnabled, ConnectionsEnabled, MutationsEnabled,
              PushEnabled, ReleaseSha];
    assert Hosted.Required(OnCloudflare) == a + b;
    InMore(v, a, b);
  }

  lemma CloudflareFirst(v: Variable)
    ensures v in [FacadeSigningSecret, RunnerSigningSecret, CallbackSigningSecret, AgentConnectionSecret,
                  OperatorAlertSigningSecret, LanggraphUpstreamToken, WorkosApiKey, OpenrouterApiKey]
       <==> v.FacadeSigningSecret? || v.RunnerSigningSecret? || v.CallbackSigningSecret? || v.AgentConnectionSecret?
            || v.OperatorAlertSigningSecret? || v.LanggraphUpstreamToken? || v.WorkosApiKey? || v.OpenrouterApiKey?
  {
  }

  lemma CloudflareSecond(v: Variable)
    ensures v in [SentryDsn, VaultBackend, ConformanceMode, RetainedDataEnabled, ConnectionsEnabled, MutationsEnabled,
                  PushEnabled, ReleaseSha]
       <==> v.SentryDsn? || v.VaultBackend? || v.ConformanceMode? || v.RetainedDataEnabled? || v.ConnectionsEnabled?
            || v.MutationsEnabled? || v.PushEnabled? || v.ReleaseSha?
  {
  }

  lemma FlyNeeds(v: Variable)
    ensures v in Hosted.Required(OnFly) <==> Needs(v, OnFly)
  {
  }

  lemma BarsIff(v: Variable, s: Service)
    ensures v in Forbidden(s) <==> Bars(v, s)
  {
    CommonIff(v);
    match s
    case OnVercel => InMore(v, CommonForbidden(), [VaultBackend, ConformanceMode]);
    case OnCloudflare =>
    case OnFly => InMore(v, CommonForbidden(), [WorkosApiKey, VaultBackend]);
  }

  lemma CommonIff(v: Variable)
    ensures v in CommonForbidden() <==> IsCommon(v)
  {
  }

  lemma InMore(v: Variable, a: seq<Variable>, b: seq<Variable>)
    ensures v in a + b <==> v in a || v in b
  {
  }

  // ----- the values asked for

  /** The service tells this value of the variable. */
  predicate Tells(held: Held, v: Variable, value: string) {
    v in held && held[v] == Some(value)
  }

  /** It is there, and no other value is told of it: Vercel tells none. */
  predicate MayBe(held: Held, v: Variable, value: string) {
    v in held && (held[v].None? || held[v].value == value)
  }

  predicate WorkerAsAsked(held: Held, target: EnvironmentSet.Target, commit: string) {
    && Tells(held, VaultBackend, if target.Local? then "memory" else "workos")
    && Tells(held, ConformanceMode, if target.Acceptance? then "true" else "false")
    && Tells(held, RetainedDataEnabled, "true") && Tells(held, ConnectionsEnabled, "true")
    && Tells(held, MutationsEnabled, if target.Acceptance? then "true" else "false")
    && Tells(held, PushEnabled, "false") && Tells(held, ReleaseSha, commit)
  }

  predicate FlyAsAsked(held: Held, target: EnvironmentSet.Target, commit: string) {
    Tells(held, ConformanceMode, if target.Acceptance? then "true" else "false") && Tells(held, ReleaseSha, commit)
  }

  predicate VercelAsAsked(held: Held, m: EnvironmentSet.Manifest) {
    && MayBe(held, WorkbenchEnvironment,
             if m.target.Local? then "local" else if m.target.Acceptance? then "acceptance" else "production")
    && MayBe(held, AlertConformanceMode, if m.target.Acceptance? then "true" else "false")
    && MayBe(held, ControlPlaneUrl, m.cloudflare.origin) && MayBe(held, LanggraphApiUrl, m.fly.origin)
    && MayBe(held, PublicWorkosRedirectUri, m.vercel.origin + "/auth/callback")
  }

  predicate MeetsRange(inventory: Hosted.Inventory, demands: seq<Demand>, i: nat, j: nat) {
    forall k :: i <= k < j ==> MeetsAt(inventory, demands, k)
  }

  lemma WorkerMeets(m: EnvironmentSet.Manifest, commit: string, inventory: Hosted.Inventory, demands: seq<Demand>)
    requires demands == Demands(m, commit)
    ensures MeetsRange(inventory, demands, 0, 7) <==> WorkerAsAsked(inventory(OnCloudflare), m.target, commit)
  {
    forall k: nat | k < 7
      ensures MeetsAt(inventory, demands, k) <==> Tells(inventory(OnCloudflare), demands[k].name, demands[k].value)
    {
    }
    if MeetsRange(inventory, demands, 0, 7) {
      assert MeetsAt(inventory, demands, 0) && MeetsAt(inventory, demands, 1) && MeetsAt(inventory, demands, 2)
          && MeetsAt(inventory, demands, 3) && MeetsAt(inventory, demands, 4) && MeetsAt(inventory, demands, 5)
          && MeetsAt(inventory, demands, 6);
    }
  }

  lemma FlyMeetsIff(m: EnvironmentSet.Manifest, commit: string, inventory: Hosted.Inventory, demands: seq<Demand>)
    requires demands == Demands(m, commit)
    ensures MeetsRange(inventory, demands, 7, 9) <==> FlyAsAsked(inventory(OnFly), m.target, commit)
  {
    if MeetsRange(inventory, demands, 7, 9) { assert MeetsAt(inventory, demands, 7) && MeetsAt(inventory, demands, 8); }
  }

  lemma VercelMeetsIff(m: EnvironmentSet.Manifest, commit: string, inventory: Hosted.Inventory, demands: seq<Demand>)
    requires demands == Demands(m, commit)
    ensures MeetsRange(inventory, demands, 9, 14) <==> VercelAsAsked(inventory(OnVercel), m)
  {
    forall k: nat | 9 <= k < 14
      ensures MeetsAt(inventory, demands, k) <==> MayBe(inventory(OnVercel), demands[k].name, demands[k].value)
    {
    }
    if MeetsRange(inventory, demands, 9, 14) {
      assert MeetsAt(inventory, demands, 9) && MeetsAt(inventory, demands, 10) && MeetsAt(inventory, demands, 11)
          && MeetsAt(inventory, demands, 12) && MeetsAt(inventory, demands, 13);
    }
  }

  lemma RangesMeet(inventory: Hosted.Inventory, demands: seq<Demand>)
    requires |demands| == 14
    ensures MeetsAll(inventory, demands) <==>
      MeetsRange(inventory, demands, 0, 7) && MeetsRange(inventory, demands, 7, 9) && MeetsRange(inventory, demands, 9, 14)
  {
    if MeetsAll(inventory, demands) {
      forall k: nat | k < 14 ensures MeetsAt(inventory, demands, k) { }
    }
    if MeetsRange(inventory, demands, 0, 7) && MeetsRange(inventory, demands, 7, 9) && MeetsRange(inventory, demands, 9, 14) {
      forall k | 0 <= k < 14 ensures Meets(inventory(demands[k].service), demands[k]) { assert MeetsAt(inventory, demands, k); }
    }
  }

  /** The service has every variable it needs, and none it may not have. */
  ghost predicate HoldsRight(s: Service, held: Held) {
    forall v :: (Needs(v, s) ==> v in held) && (Bars(v, s) ==> v !in held)
  }

  lemma SoundIff(s: Service, held: Held)
    ensures ServiceSound(s, held) <==> HoldsRight(s, held)
  {
    forall v ensures v in Hosted.Required(s) <==> Needs(v, s) { NeedsIff(v, s); }
    forall v ensures v in Forbidden(s) <==> Bars(v, s) { BarsIff(v, s); }
    HoldsIff(held, Hosted.Required(s), Forbidden(s));
  }

  lemma HoldsIff(held: Held, names: seq<Variable>, others: seq<Variable>)
    ensures HoldsAll(held, names) <==> forall v :: v in names ==> v in held
    ensures HoldsNone(held, others) <==> forall v :: v in others ==> v !in held
  {
  }

  /** The check passes exactly if each service has every variable it needs and none it may not have,
      and the values told are those asked for. */
  lemma PassesExactly(m: EnvironmentSet.Manifest, inventory: Hosted.Inventory, commit: string)
    ensures Hosted.Failures(m, inventory, commit) == [] <==>
      && (forall s :: HoldsRight(s, inventory(s)))
      && WorkerAsAsked(inventory(OnCloudflare), m.target, commit)
      && FlyAsAsked(inventory(OnFly), m.target, commit)
      && VercelAsAsked(inventory(OnVercel), m)
  {
    var demands := Demands(m, commit);
    AcceptedIffSound(m, inventory, commit);
    DemandServices(m, commit, demands);
    RangesMeet(inventory, demands);
    WorkerMeets(m, commit, inventory, demands);
    FlyMeetsIff(m, commit, inventory, demands);
    VercelMeetsIff(m, commit, inventory, demands);
    AllSoundIff(inventory);
  }

  lemma AllSoundIff(inventory: Hosted.Inventory)
    ensures AllSound(inventory) <==> forall s :: HoldsRight(s, inventory(s))
  {
    SoundIff(OnVercel, inventory(OnVercel));
    SoundIff(OnCloudflare, inventory(OnCloudflare));
    SoundIff(OnFly, inventory(OnFly));
    EachService(inventory);
  }

  lemma EachService(inventory: Hosted.Inventory)
    ensures (forall s :: HoldsRight(s, inventory(s)))
       <==> && HoldsRight(OnVercel, inventory(OnVercel)) && HoldsRight(OnCloudflare, inventory(OnCloudflare))
            && HoldsRight(OnFly, inventory(OnFly))
  {
    if HoldsRight(OnVercel, inventory(OnVercel)) && HoldsRight(OnCloudflare, inventory(OnCloudflare)) && HoldsRight(OnFly, inventory(OnFly)) {
      forall s ensures HoldsRight(s, inventory(s)) {
        match s
        case OnVercel =>
        case OnCloudflare =>
        case OnFly =>
      }
    }
  }

  // ----- what is reported

  lemma {:induction false} MissingIff(s: Service, held: Held, names: seq<Variable>, v: Variable)
    ensures MissingName(s, v) in MissingIn(s, held, names) <==> v in names && v !in held
    ensures forall f :: f in MissingIn(s, held, names) ==> f.MissingName? && f.service == s
  {
    if names != [] {
      MissingIff(s, held, names[..|names| - 1], v);
      assert names == names[..|names| - 1] + [names[|names| - 1]];
    }
  }

  lemma {:induction false} ForbiddenIff(s: Service, held: Held, names: seq<Variable>, v: Variable)
    ensures ForbiddenName(s, v) in ForbiddenIn(s, held, names) <==> v in names && v in held
    ensures forall f :: f in ForbiddenIn(s, held, names) ==> f.ForbiddenName? && f.service == s
  {
    if names != [] {
      ForbiddenIff(s, held, names[..|names| - 1], v);
      assert names == names[..|names| - 1] + [names[|names| - 1]];
    }
  }

  lemma {:induction false} UnmetAre(inventory: Hosted.Inventory, demands: seq<Demand>)
    ensures forall f :: f in UnmetBy(inventory, demands) ==> f.Mismatch?
  {
    if demands != [] { UnmetAre(inventory, demands[..|demands| - 1]); }
  }

  lemma ServiceReports(s: Service, held: Held, v: Variable)
    ensures MissingName(s, v) in ServiceFailures(s, held) <==> Needs(v, s) && v !in held
    ensures ForbiddenName(s, v) in ServiceFailures(s, held) <==> Bars(v, s) && v in held
    ensures forall f :: f in ServiceFailures(s, held) ==> (f.MissingName? || f.ForbiddenName?) && f.service == s
  {
    NeedsIff(v, s);
    BarsIff(v, s);
    MissingIff(s, held, Hosted.Required(s), v);
    ForbiddenIff(s, held, Forbidden(s), v);
  }

  /** A variable is reported missing, or forbidden, exactly if it is. */
  lemma ReportedExactly(m: EnvironmentSet.Manifest, inventory: Hosted.Inventory, commit: string, s: Service, v: Variable)
    ensures MissingName(s, v) in Hosted.Failures(m, inventory, commit) <==> Needs(v, s) && v !in inventory(s)
    ensures ForbiddenName(s, v) in Hosted.Failures(m, inventory, commit) <==> Bars(v, s) && v in inventory(s)
  {
    ServiceReports(OnVercel, inventory(OnVercel), v);
    ServiceReports(OnCloudflare, inventory(OnCloudflare), v);
    ServiceReports(OnFly, inventory(OnFly), v);
    UnmetAre(inventory, Demands(m, commit));
    FourParts(ServiceFailures(OnVercel, inventory(OnVercel)), ServiceFailures(OnCloudflare, inventory(OnCloudflare)),
              ServiceFailures(OnFly, inventory(OnFly)), UnmetBy(inventory, Demands(m, commit)), MissingName(s, v));
    FourParts(ServiceFailures(OnVercel, inventory(OnVercel)), ServiceFailures(OnCloudflare, inventory(OnCloudflare)),
              ServiceFailures(OnFly, inventory(OnFly)), UnmetBy(inventory, Demands(m, commit)), ForbiddenName(s, v));
  }

  lemma FourParts(a: seq<Failure>, b: seq<Failure>, c: seq<Failure>, d: seq<Failure>, f: Failure)
    ensures f in a + b + c + d <==> f in a || f in b || f in c || f in d
  {
  }

  // ----- what is rendered

  /** The program throws exactly for a bootstrap with features, an origin that is no URL, and a release
      that is neither `development` nor forty digits in small hexadecimal. */
  lemma ThrowsIff(m: EnvironmentSet.Manifest, target: EnvironmentSet.Target, bootstrap: bool, stage: Promotion.Stage, sha: string,
                  isUrl: string -> bool, providers: string, spell: Variable -> string)
    ensures Render(m, target, bootstrap, stage, sha, isUrl, providers, spell).None? <==>
      || (bootstrap && !stage.Disabled?)
      || !isUrl(m.fly.origin)
      || (sha != "development" && !(|sha| == 40 && forall i :: 0 <= i < |sha| ==> sha[i] in "0123456789abcdef"))
  {
    forall i | 0 <= i < |sha| ensures (IsDigit(sha[i]) || 'a' <= sha[i] <= 'f') <==> sha[i] in HexDigits {
      HexadecimalDigits(0, sha[i]);
      HexIn(sha[i]);
    }
  }

  lemma HexIn(c: char)
    ensures (IsDigit(c) || 'a' <= c <= 'f') <==> c in "0123456789abcdef"
  {
  }

  /** What the Fly application reads of its rendered file. */
  lemma FlyValuesRead(m: EnvironmentSet.Manifest, target: EnvironmentSet.Target, sha: string, spell: Variable -> string)
    requires Spells(spell) && NoBreaks(m) && OneLine(sha) && OneLine(m.fly.origin) && OneLine(m.cloudflare.origin)
    ensures var names := ReadInventory(RenderFly(m.fly.appName, FlyEntries(m, target, sha, spell)), []);
      && Reads(names, spell(LanggraphPort), "2024") && Reads(names, spell(LanggraphUpstreamUrl), "http://127.0.0.1:2024")
      && Reads(names, spell(OpenrouterAppName), "assistant-mk1-" + NameOf(target) + "-runner")
      && Reads(names, spell(OpenrouterModel), "deepseek/deepseek-v4-flash") && Reads(names, spell(OpenrouterSiteUrl), m.fly.origin)
      && Reads(names, spell(ConformanceMode), if m.conformanceMode then "true" else "false")
      && Reads(names, spell(CallbackOrigin), m.cloudflare.origin) && Reads(names, spell(ReleaseSha), sha)
  {
    var values := FlyValues(m, target, sha);
    FlyVariablesDistinct();
    FlyValuesPlain(m, target, sha);
    EntriesRead(m.fly.appName, FlyVariables, values, spell);
    forall i | 0 <= i < 8 ensures OneLine(values[i]) { FlyValueOnOneLine(m, target, sha, i); }
    AllEight(ReadInventory(RenderFly(m.fly.appName, FlyEntries(m, target, sha, spell)), []), FlyVariables, values, spell);
  }

  /** What the Worker is told of the other services, besides the values that are checked. */
  lemma WorkerAddressesHeld(m: EnvironmentSet.Manifest, target: EnvironmentSet.Target, stage: Promotion.Stage, sha: string, providers: string)
    ensures var vars := WranglerVars(m, target, stage, sha, providers);
      && HasText(vars, LanggraphUpstreamUrl, m.fly.origin) && HasText(vars, OpenrouterSiteUrl, m.vercel.origin)
      && HasText(vars, CallbackUrl, m.cloudflare.origin + "/workbench/run-callbacks")
      && HasText(vars, RunnerUrl, m.fly.origin + "/workbench/tool-runners/invocations")
      && HasText(vars, AlertWebhookUrl, m.vercel.origin + "/api/workbench/operator-alerts/ingest")
  {
  }

  lemma ProvidersHeld(m: EnvironmentSet.Manifest, target: EnvironmentSet.Target, stage: Promotion.Stage, sha: string, providers: string)
    ensures var vars := WranglerVars(m, target, stage, sha, providers);
      if m.conformanceMode then HasText(vars, OauthProviders, providers) else OauthProviders !in vars
  {
  }

  lemma WorkerNamesHeld(m: EnvironmentSet.Manifest, target: EnvironmentSet.Target, stage: Promotion.Stage, sha: string, providers: string)
    ensures var vars := WranglerVars(m, target, stage, sha, providers);
      && HasText(vars, LanggraphAssistantId, "agent") && HasText(vars, OpenrouterModel, "deepseek/deepseek-v4-flash")
      && HasText(vars, OpenrouterAppName, "assistant-mk1-" + NameOf(target) + "-cloudflare-chat")
      && HasText(vars, RunnerTransport, "fly") && HasText(vars, SentryEnvironment, NameOf(target))
      && HasText(vars, SentryTraces, "0.02")
  {
  }

  /** The value of a secret variable: the same on every service that has it. */
  function SecretOf(v: ProviderSecrets, n: Variable): Option<string> {
    match n
    case FacadeSigningSecret => Some(v.roles.facadeSigning)
    case RunnerSigningSecret => Some(v.roles.runnerSigning)
    case CallbackSigningSecret => Some(v.roles.callbackSigning)
    case AgentConnectionSecret => Some(v.roles.agentConnection)
    case OperatorAlertSigningSecret => Some(v.roles.operatorAlertSigning)
    case LanggraphUpstreamToken => Some(v.roles.langgraphProxy)
    case LanggraphProxyToken => Some(v.roles.langgraphProxy)
    case WorkosApiKey => Some(v.roles.vault)
    case WorkosCookiePassword => Some(v.roles.workosCookie)
    case OpenrouterApiKey => Some(v.roles.openrouter)
    case SentryDsn => Some(v.sentryDsn)
    case PublicSentryDsn => Some(v.sentryDsn)
    case SentryAuthToken => Some(v.sentryAuthToken)
    case _ => None
  }

  lemma WorkerSecretIs(v: ProviderSecrets, n: Variable)
    ensures n in WorkerSecrets(v) ==> SecretOf(v, n) == Some(WorkerSecrets(v)[n])
  {
  }

  lemma VercelSecretIs(v: ProviderSecrets, n: Variable)
    ensures n in VercelSecrets(v) ==> SecretOf(v, n) == Some(VercelSecrets(v)[n])
  {
  }

  lemma FlySecretIs(v: ProviderSecrets, i: nat)
    requires i < |FlySecrets(v)|
    ensures SecretOf(v, FlySecrets(v)[i].0) == Some(FlySecrets(v)[i].1)
  {
  }

  /** So the services agree on every secret that two of them have. */
  lemma SecretsAgree(v: ProviderSecrets, n: Variable, i: nat)
    requires i < |FlySecrets(v)|
    ensures n in WorkerSecrets(v) && n in VercelSecrets(v) ==> WorkerSecrets(v)[n] == VercelSecrets(v)[n]
    ensures FlySecrets(v)[i].0 in WorkerSecrets(v) ==> FlySecrets(v)[i].1 == WorkerSecrets(v)[FlySecrets(v)[i].0]
  {
    WorkerSecretIs(v, n);
    VercelSecretIs(v, n);
    FlySecretIs(v, i);
    WorkerSecretIs(v, FlySecrets(v)[i].0);
  }

  /** What is set on Vercel is what the check asks for, though Vercel does not tell it. */
  lemma VercelSetAsAsked(m: EnvironmentSet.Manifest)
    ensures VercelAsAsked(WithValues(VercelVariables(m)), m)
  {
    VercelVariableNames(m);
    VercelChecked(m);
  }

  lemma VercelChecked(m: EnvironmentSet.Manifest)
    ensures var s := VercelVariables(m);
      && HasText(s, WorkbenchEnvironment, NameOf(m.target))
      && HasText(s, AlertConformanceMode, if m.target.Acceptance? then "true" else "false")
      && HasText(s, ControlPlaneUrl, m.cloudflare.origin) && HasText(s, LanggraphApiUrl, m.fly.origin)
      && HasText(s, PublicWorkosRedirectUri, m.vercel.origin + "/auth/callback")
  {
  }

  predicate Reads(names: FlyConfig.Inventory, name: string, value: string) {
    name in names && names[name] == Some(value)
  }

  function NameOf(target: EnvironmentSet.Target): string {
    match target
    case Local => "local"
    case Acceptance => "acceptance"
    case Production => "production"
  }

  lemma AllEight(names: FlyConfig.Inventory, variables: seq<Variable>, values: seq<string>, spell: Variable -> string)
    requires |variables| == |values| == 8
    requires forall i :: 0 <= i < 8 ==> spell(variables[i]) in names && names[spell(variables[i])] == Some(values[i])
    ensures Reads(names, spell(variables[0]), values[0]) && Reads(names, spell(variables[1]), values[1])
    ensures Reads(names, spell(variables[2]), values[2]) && Reads(names, spell(variables[3]), values[3])
    ensures Reads(names, spell(variables[4]), values[4]) && Reads(names, spell(variables[5]), values[5])
    ensures Reads(names, spell(variables[6]), values[6]) && Reads(names, spell(variables[7]), values[7])
  {
  }

  lemma PrintableOnOneLine(s: string)
    requires Printable(s)
    ensures OneLine(s)
  {
  }

  lemma FlyValueOnOneLine(m: EnvironmentSet.Manifest, target: EnvironmentSet.Target, sha: string, i: nat)
    requires OneLine(sha) && OneLine(m.fly.origin) && OneLine(m.cloudflare.origin) && i < 8
    ensures OneLine(FlyValues(m, target, sha)[i])
  {
    if i < 4 {
      FixedOnOneLine(target);
    } else {
      BoolOnOneLine(m.conformanceMode);
    }
  }

  lemma FixedOnOneLine(target: EnvironmentSet.Target)
    ensures OneLine("2024") && OneLine("http://127.0.0.1:2024") && OneLine("deepseek/deepseek-v4-flash")
    ensures OneLine("assistant-mk1-" + target.Name() + "-runner")
  {
    PrintableOnOneLine("2024");
    PrintableOnOneLine("http://127.0.0.1:2024");
    PrintableOnOneLine("deepseek/deepseek-v4-flash");
    PrintableOnOneLine("assistant-mk1-");
    PrintableOnOneLine(target.Name());
    PrintableOnOneLine("-runner");
    JoinedOnOneLine("assistant-mk1-", target.Name(), "-runner");
  }

  lemma JoinedOnOneLine(a: string, b: string, c: string)
    requires OneLine(a) && OneLine(b) && OneLine(c)
    ensures OneLine(a + b + c)
  {
  }
}
