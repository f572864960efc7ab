/**
 When environments are isolated from one another, said of the fields of their manifests and of the
 values in the environment (scripts/workbench-environment.ts, lines 234-323).
 */
module EnvironmentRules {
  import opened Text
  import opened Order
  import opened EnvironmentSet
  import SecretValues

  /** What two environments may not share. */
  datatype Resource =
    | WorkerName | D1Name | D1Id | Bucket | CloudflareOrigin | FlyApp | FlyOrigin
    | VercelProject | VercelProjectName | VercelOrigin | WorkOsId | WorkOsName

  function At(m: Manifest, resource: Resource): string {
    match resource
    case WorkerName => m.cloudflare.workerName
    case D1Name => m.cloudflare.d1DatabaseName
    case D1Id => m.cloudflare.d1DatabaseId
    case Bucket => m.cloudflare.r2BucketName
    case CloudflareOrigin => m.cloudflare.origin
    case FlyApp => m.fly.appName
    case FlyOrigin => m.fly.origin
    case VercelProject => m.vercel.projectId
    case VercelProjectName => m.vercel.projectName
    case VercelOrigin => m.vercel.origin
    case WorkOsId => m.workos.applicationId
    case WorkOsName => m.workos.applicationName
  }

  datatype Role =
    | FacadeSigning | RunnerSigning | CallbackSigning | AgentConnection | OperatorAlertSigning
    | WorkosCookie | LanggraphProxy | VaultKey | Openrouter

  function Of(s: Secrets, role: Role): string {
    match role
    case FacadeSigning => s.facadeSigning
    case RunnerSigning => s.runnerSigning
    case CallbackSigning => s.callbackSigning
    case AgentConnection => s.agentConnection
    case OperatorAlertSigning => s.operatorAlertSigning
    case WorkosCookie => s.workosCookie
    case LanggraphProxy => s.langgraphProxy
    case VaultKey => s.vault
    case Openrouter => s.openrouter
  }

  function KeyOf(resource: Resource): (key: nat)
    ensures key < 12
  {
    match resource
    case WorkerName => 0
    case D1Name => 1
    case D1Id => 2
    case Bucket => 3
    case CloudflareOrigin => 4
    case FlyApp => 5
    case FlyOrigin => 6
    case VercelProject => 7
    case VercelProjectName => 8
    case VercelOrigin => 9
    case WorkOsId => 10
    case WorkOsName => 11
  }

  function PlaceOf(role: Role): (r: nat)
    ensures r < 9
  {
    match role
    case FacadeSigning => 0
    case RunnerSigning => 1
    case CallbackSigning => 2
    case AgentConnection => 3
    case OperatorAlertSigning => 4
    case WorkosCookie => 5
    case LanggraphProxy => 6
    case VaultKey => 7
    case Openrouter => 8
  }

  lemma AtKey(m: Manifest, resource: Resource)
    ensures At(m, resource) == Resources(m)[KeyOf(resource)]
  {
  }

  lemma ResourceAt(key: nat) returns (resource: Resource)
    requires key < 12
    ensures KeyOf(resource) == key
  {
    var all := [WorkerName, D1Name, D1Id, Bucket, CloudflareOrigin, FlyApp, FlyOrigin,
                VercelProject, VercelProjectName, VercelOrigin, WorkOsId, WorkOsName];
    resource := all[key];
  }

  lemma OfPlace(s: Secrets, role: Role)
    ensures Of(s, role) == RoleValues(s)[PlaceOf(role)]
  {
  }

  lemma RoleAt(r: nat) returns (role: Role)
    requires r < 9
    ensures PlaceOf(role) == r
  {
    var all := [FacadeSigning, RunnerSigning, CallbackSigning, AgentConnection, OperatorAlertSigning,
                WorkosCookie, LanggraphProxy, VaultKey, Openrouter];
    role := all[r];
  }

  lemma OnePlace(a: Role, b: Role)
    ensures PlaceOf(a) == PlaceOf(b) <==> a == b
  {
  }

  // ----- by reference

  ghost predicate ResourcesApart(manifests: seq<Manifest>, resource: Resource) {
    forall i, j :: 0 <= i < j < |manifests| ==> At(manifests[i], resource) != At(manifests[j], resource)
  }

  lemma ApartIff(manifests: seq<Manifest>, resource: Resource)
    ensures ResourcesApart(manifests, resource) <==> Separate(manifests, KeyOf(resource))
  {
    forall i | 0 <= i < |manifests| ensures At(manifests[i], resource) == Resources(manifests[i])[KeyOf(resource)] {
      AtKey(manifests[i], resource);
    }
  }

  lemma AllApartIff(manifests: seq<Manifest>)
    ensures (forall resource :: ResourcesApart(manifests, resource)) <==> (forall key :: 0 <= key < 12 ==> Separate(manifests, key))
  {
    if forall resource :: ResourcesApart(manifests, resource) {
      forall key | 0 <= key < 12 ensures Separate(manifests, key) {
        var resource := ResourceAt(key);
        ApartIff(manifests, resource);
        assert ResourcesApart(manifests, resource);
      }
    }
    if forall key :: 0 <= key < 12 ==> Separate(manifests, key) {
      forall resource ensures ResourcesApart(manifests, resource) { ApartIff(manifests, resource); }
    }
  }

  /** No secret reference stands for two roles, in one environment or in two. */
  ghost predicate ReferencesApart(manifests: seq<Manifest>) {
    forall i, a, j, b :: 0 <= i < |manifests| && 0 <= j < |manifests| && (i != j || a != b) ==>
      Of(manifests[i].secrets, a) != Of(manifests[j].secrets, b)
  }

  lemma ReferencesIff(manifests: seq<Manifest>)
    ensures ReferencesApart(manifests) <==> SecretsDistinct(manifests)
  {
    if ReferencesApart(manifests) {
      forall i, r, j, s | 0 <= i < |manifests| && 0 <= j < |manifests| && 0 <= r && 0 <= s && OtherRole(i, r, j, s)
        ensures RoleValues(manifests[i].secrets)[r] != RoleValues(manifests[j].secrets)[s]
      {
        var a := RoleAt(r);
        var b := RoleAt(s);
        OfPlace(manifests[i].secrets, a);
        OfPlace(manifests[j].secrets, b);
        OnePlace(a, b);
        assert Of(manifests[i].secrets, a) != Of(manifests[j].secrets, b);
      }
    }
    if SecretsDistinct(manifests) {
      forall i, a, j, b | 0 <= i < |manifests| && 0 <= j < |manifests| && (i != j || a != b)
        ensures Of(manifests[i].secrets, a) != Of(manifests[j].secrets, b)
      {
        OfPlace(manifests[i].secrets, a);
        OfPlace(manifests[j].secrets, b);
        OnePlace(a, b);
        assert OtherRole(i, PlaceOf(a), j, PlaceOf(b));
      }
    }
  }

  /** The set of environments is accepted exactly if no two have one target, or one of any resource, no
      secret reference stands for two roles, none turns mutations on, and production has neither
      conformance nor the memory vault. */
  lemma SetAcceptedIff(manifests: seq<Manifest>)
    ensures EnvironmentSet.Failures(manifests) == [] <==>
      && (forall i, j :: 0 <= i < j < |manifests| ==> manifests[i].target != manifests[j].target)
      && (forall resource :: ResourcesApart(manifests, resource))
      && ReferencesApart(manifests)
      && (forall i :: 0 <= i < |manifests| ==> !manifests[i].mutationDefaultEnabled)
      && (forall i :: 0 <= i < |manifests| && manifests[i].target == Production ==>
            !manifests[i].conformanceMode && manifests[i].vaultBackend == WorkOs)
  {
    AcceptedIffIsolated(manifests);
    AllApartIff(manifests);
    ReferencesIff(manifests);
    SafeIff(manifests);
  }

  lemma SafeIff(manifests: seq<Manifest>)
    ensures (forall i :: 0 <= i < |manifests| ==> Safe(manifests[i])) <==>
      && (forall i :: 0 <= i < |manifests| ==> !manifests[i].mutationDefaultEnabled)
      && (forall i :: 0 <= i < |manifests| && manifests[i].target == Production ==>
            !manifests[i].conformanceMode && manifests[i].vaultBackend == WorkOs)
  {
    forall i | 0 <= i < |manifests|
      ensures Safe(manifests[i])
         <==> && !manifests[i].mutationDefaultEnabled
              && (manifests[i].target == Production ==> !manifests[i].conformanceMode && manifests[i].vaultBackend == WorkOs)
    {
    }
  }

  function NameOf(target: Target): string {
    match target
    case Local => "local"
    case Acceptance => "acceptance"
    case Production => "production"
  }

  /** What is reported of a manifest alone. */
  lemma OwnReports(m: Manifest, name: string)
    ensures ConformanceInProduction in ManifestFailures(m) <==> m.target == Production && m.conformanceMode
    ensures MemoryInProduction in ManifestFailures(m) <==> m.target == Production && m.vaultBackend == Memory
    ensures MutationsOn(name) in ManifestFailures(m) <==> m.mutationDefaultEnabled && name == NameOf(m.target)
    ensures SecretsRepeat(name) in ManifestFailures(m)
       <==> name == NameOf(m.target) && exists a, b :: a != b && Of(m.secrets, a) == Of(m.secrets, b)
  {
    SizeIffDistinct(RoleValues(m.secrets));
    RepeatIff(m.secrets);
  }

  lemma RepeatIff(s: Secrets)
    ensures !Distinct(RoleValues(s)) <==> exists a, b :: a != b && Of(s, a) == Of(s, b)
  {
    var values := RoleValues(s);
    if i, j :| 0 <= i < j < 9 && values[i] == values[j] {
      var a := RoleAt(i);
      var b := RoleAt(j);
      OfPlace(s, a);
      OfPlace(s, b);
      assert a != b && Of(s, a) == Of(s, b);
    }
    if a, b :| a != b && Of(s, a) == Of(s, b) {
      OfPlace(s, a);
      OfPlace(s, b);
      OnePlace(a, b);
    }
  }

  // ----- by value

  /** What is held for a role: the value of its variable, trimmed. */
  function ValueFor(m: Manifest, source: map<string, string>, role: Role): string {
    var variable := Of(m.secrets, role);
    if variable in source then Trim(source[variable]) else ""
  }

  lemma HeldFor(m: Manifest, source: map<string, string>, role: Role)
    ensures ValueFor(m, source, role) == SecretValues.Held(m, source)[PlaceOf(role)]
  {
    OfPlace(m.secrets, role);
  }

  ghost predicate ValuesLong(manifests: seq<Manifest>, source: map<string, string>) {
    forall i, role :: 0 <= i < |manifests| ==> |ValueFor(manifests[i], source, role)| >= 32
  }

  ghost predicate ValuesApart(manifests: seq<Manifest>, source: map<string, string>) {
    forall i, a, j, b :: 0 <= i < |manifests| && 0 <= j < |manifests| && (i != j || a != b) ==>
      ValueFor(manifests[i], source, a) != ValueFor(manifests[j], source, b)
  }

  lemma LongIff(manifests: seq<Manifest>, source: map<string, string>)
    ensures ValuesLong(manifests, source) <==> SecretValues.AllUsable(manifests, source)
  {
    if ValuesLong(manifests, source) {
      forall i, r | 0 <= i < |manifests| && 0 <= r < 9 ensures SecretValues.Usable(SecretValues.Held(manifests[i], source)[r]) {
        var role := RoleAt(r);
        HeldFor(manifests[i], source, role);
        assert |ValueFor(manifests[i], source, role)| >= 32;
      }
    }
    if SecretValues.AllUsable(manifests, source) {
      forall i, role | 0 <= i < |manifests| ensures |ValueFor(manifests[i], source, role)| >= 32 {
        HeldFor(manifests[i], source, role);
        assert SecretValues.Usable(SecretValues.Held(manifests[i], source)[PlaceOf(role)]);
      }
    }
  }

  lemma ValuesApartIff(manifests: seq<Manifest>, source: map<string, string>)
    ensures ValuesApart(manifests, source) <==> SecretValues.AllDifferent(manifests, source)
  {
    if ValuesApart(manifests, source) {
      forall i, r, j, s | 0 <= i < |manifests| && 0 <= j < |manifests| && 0 <= r && 0 <= s && OtherRole(i, r, j, s)
        ensures SecretValues.Held(manifests[i], source)[r] != SecretValues.Held(manifests[j], source)[s]
      {
        var a := RoleAt(r);
        var b := RoleAt(s);
        HeldFor(manifests[i], source, a);
        HeldFor(manifests[j], source, b);
        OnePlace(a, b);
        assert ValueFor(manifests[i], source, a) != ValueFor(manifests[j], source, b);
      }
    }
    if SecretValues.AllDifferent(manifests, source) {
      forall i, a, j, b | 0 <= i < |manifests| && 0 <= j < |manifests| && (i != j || a != b)
        ensures ValueFor(manifests[i], source, a) != ValueFor(manifests[j], source, b)
      {
        HeldFor(manifests[i], source, a);
        HeldFor(manifests[j], source, b);
        OnePlace(a, b);
        assert OtherRole(i, PlaceOf(a), j, PlaceOf(b));
      }
    }
  }

  /** The secret values are accepted exactly if every role of every environment has one of at least 32
      characters, trimmed, and no two roles have the same. */
  lemma ValuesAcceptedIff(manifests: seq<Manifest>, source: map<string, string>)
    ensures SecretValues.CheckAll(manifests, source).failures == []
       <==> ValuesLong(manifests, source) && ValuesApart(manifests, source)
  {
    SecretValues.AcceptedIffDistinctValues(manifests, source);
    LongIff(manifests, source);
    ValuesApartIff(manifests, source);
  }

  /** How a role is called where its value is shared. */
  lemma RoleCalled(target: string, role: Role)
    ensures SecretValues.OwnerName(target, PlaceOf(role)) == target + " " +
      match role
      case FacadeSigning => "facadeSigning"
      case RunnerSigning => "runnerSigning"
      case CallbackSigning => "callbackSigning"
      case AgentConnection => "agentConnection"
      case OperatorAlertSigning => "operatorAlertSigning"
      case WorkosCookie => "workosCookie"
      case LanggraphProxy => "langgraphProxy"
      case VaultKey => "vault"
      case Openrouter => "openrouter"
  {
  }

  /** What is reported of a role's value. */
  lemma {:induction false} RoleReports(target: string, values: seq<string>, n: nat, r: nat)
    requires r < n <= |values|
    ensures SecretValues.Missing(target, r) in SecretValues.RoleFailures(target, values, n) <==> values[r] == ""
    ensures SecretValues.TooShort(target, r) in SecretValues.RoleFailures(target, values, n) <==> 0 < |values[r]| < 32
  {
    if r < n - 1 { RoleReports(target, values, n - 1, r); } else { NoneFor(target, values, n - 1, r); }
  }

  lemma {:induction false} NoneFor(target: string, values: seq<string>, n: nat, r: nat)
    requires n <= r && n <= |values|
    ensures SecretValues.Missing(target, r) !in SecretValues.RoleFailures(target, values, n)
    ensures SecretValues.TooShort(target, r) !in SecretValues.RoleFailures(target, values, n)
  {
    if n > 0 { NoneFor(target, values, n - 1, r); }
  }
}
