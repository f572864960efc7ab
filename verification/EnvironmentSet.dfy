/**
 The isolation of the environments from one another (scripts/workbench-environment.ts,
 lines 4-45 and 234-323).
 */
module EnvironmentSet {
  import opened Order
  import opened Ownership

  datatype Target = Local | Acceptance | Production {
    function Name(): string {
      match this
      case Local => "local"
      case Acceptance => "acceptance"
      case Production => "production"
    }
  }

  datatype Vault = Memory | WorkOs

  datatype Cloudflare = Cloudflare(workerName: string, d1DatabaseName: string, d1DatabaseId: string, r2BucketName: string, origin: string)
  datatype Fly = Fly(appName: string, origin: string)
  datatype Vercel = Vercel(projectName: string, organizationId: string, projectId: string, origin: string)
  datatype WorkOsApplication = WorkOsApplication(applicationName: string, applicationId: string, acceptanceWorkspaceId: string)

  /** A value for each secret role. */
  datatype Secrets = Secrets(facadeSigning: string, runnerSigning: string, callbackSigning: string, agentConnection: string,
                             operatorAlertSigning: string, workosCookie: string, langgraphProxy: string, vault: string,
                             openrouter: string)

  datatype Manifest = Manifest(
    target: Target,
    conformanceMode: bool,
    vaultBackend: Vault,
    mutationDefaultEnabled: bool,
    cloudflare: Cloudflare,
    fly: Fly,
    vercel: Vercel,
    workos: WorkOsApplication,
    secrets: Secrets)

  const RoleNames := ["facadeSigning", "runnerSigning", "callbackSigning", "agentConnection", "operatorAlertSigning",
                      "workosCookie", "langgraphProxy", "vault", "openrouter"]

  /** `Object.values(secretEnvironmentVariables)` */
  function RoleValues(s: Secrets): (values: seq<string>)
    ensures |values| == 9
  {
    [s.facadeSigning, s.runnerSigning, s.callbackSigning, s.agentConnection, s.operatorAlertSigning, s.workosCookie,
     s.langgraphProxy, s.vault, s.openrouter]
  }

  /** `Object.values(resourceValues(manifest))` */
  function Resources(m: Manifest): (values: seq<string>)
    ensures |values| == 12
  {
    [m.cloudflare.workerName, m.cloudflare.d1DatabaseName, m.cloudflare.d1DatabaseId, m.cloudflare.r2BucketName,
     m.cloudflare.origin, m.fly.appName, m.fly.origin, m.vercel.projectId, m.vercel.projectName, m.vercel.origin,
     m.workos.applicationId, m.workos.applicationName]
  }

  datatype Failure =
    | TargetsRepeat
    | ConformanceInProduction
    | MemoryInProduction
    | MutationsOn(target: string)
    | SecretsRepeat(target: string)
    | ResourceShared(key: nat, sharing: Shared)
    | SecretShared(sharing: Shared)

  function ManifestFailures(m: Manifest): seq<Failure> {
    (if m.target == Production && m.conformanceMode then [ConformanceInProduction] else [])
    + (if m.target == Production && m.vaultBackend == Memory then [MemoryInProduction] else [])
    + (if m.mutationDefaultEnabled then [MutationsOn(m.target.Name())] else [])
    + if |Elements(RoleValues(m.secrets))| != |RoleValues(m.secrets)| then [SecretsRepeat(m.target.Name())] else []
  }

  /** The failures of each manifest on its own. */
  function OwnFailures(manifests: seq<Manifest>): (lists: seq<seq<Failure>>)
    ensures |lists| == |manifests| && forall i :: 0 <= i < |manifests| ==> lists[i] == ManifestFailures(manifests[i])
  {
    seq(|manifests|, i requires 0 <= i < |manifests| => ManifestFailures(manifests[i]))
  }

  /** The claims of all manifests to the resources under one key. */
  function ResourceClaims(manifests: seq<Manifest>, key: nat): (claims: seq<Claim>)
    requires key < 12
    ensures |claims| == |manifests|
    ensures forall i :: 0 <= i < |manifests| ==> claims[i] == Claim(Resources(manifests[i])[key], manifests[i].target.Name())
  {
    seq(|manifests|, i requires 0 <= i < |manifests| => Claim(Resources(manifests[i])[key], manifests[i].target.Name()))
  }

  function ResourceFailures(shared: seq<Shared>, key: nat): (r: seq<Failure>)
    ensures |r| == |shared| && forall i :: 0 <= i < |shared| ==> r[i] == ResourceShared(key, shared[i])
  {
    seq(|shared|, i requires 0 <= i < |shared| => ResourceShared(key, shared[i]))
  }

  function FailuresUnder(manifests: seq<Manifest>, key: nat): seq<Failure>
    requires key < 12
  {
    ResourceFailures(Run(Empty, ResourceClaims(manifests, key), true).shared, key)
  }

  /** The failures under each key. */
  function SharingFailures(manifests: seq<Manifest>): (lists: seq<seq<Failure>>)
    ensures |lists| == 12 && forall key :: 0 <= key < 12 ==> lists[key] == FailuresUnder(manifests, key)
  {
    seq(12, key requires 0 <= key < 12 => FailuresUnder(manifests, key))
  }

  /** The claims of one manifest to its secret references. */
  function SecretClaims(m: Manifest): (claims: seq<Claim>)
    ensures |claims| == 9
    ensures forall r :: 0 <= r < 9 ==> claims[r] == Claim(RoleValues(m.secrets)[r], m.target.Name())
  {
    seq(9, r requires 0 <= r < 9 => Claim(RoleValues(m.secrets)[r], m.target.Name()))
  }

  function SecretLists(manifests: seq<Manifest>): (lists: seq<seq<Claim>>)
    ensures |lists| == |manifests| && forall i :: 0 <= i < |manifests| ==> lists[i] == SecretClaims(manifests[i])
  {
    seq(|manifests|, i requires 0 <= i < |manifests| => SecretClaims(manifests[i]))
  }

  function SecretFailures(shared: seq<Shared>): (r: seq<Failure>)
    ensures |r| == |shared| && forall i :: 0 <= i < |shared| ==> r[i] == SecretShared(shared[i])
  {
    seq(|shared|, i requires 0 <= i < |shared| => SecretShared(shared[i]))
  }

  function Targets(manifests: seq<Manifest>): (targets: seq<Target>)
    ensures |targets| == |manifests| && forall i :: 0 <= i < |manifests| ==> targets[i] == manifests[i].target
  {
    seq(|manifests|, i requires 0 <= i < |manifests| => manifests[i].target)
  }

  function Failures(manifests: seq<Manifest>): seq<Failure> {
    (if |Elements(Targets(manifests))| != |manifests| then [TargetsRepeat] else [])
    + Flatten(OwnFailures(manifests))
    + Flatten(SharingFailures(manifests))
    + SecretFailures(Run(Empty, Flatten(SecretLists(manifests)), true).shared)
  }

  method CheckManifests(manifests: seq<Manifest>) returns (failures: seq<Failure>)
    ensures failures == Flatten(OwnFailures(manifests))
  {
    ghost var lists := OwnFailures(manifests);
    failures := [];
    for k := 0 to |manifests|
      invariant failures == Flatten(lists[..k])
    {
      FlattenStep(lists, k);
      var found := CheckManifest(manifests[k]);
      failures := failures + found;
    }
    assert lists[..|manifests|] == lists;
  }

  method CheckManifest(m: Manifest) returns (failures: seq<Failure>)
    ensures failures == ManifestFailures(m)
  {
    failures := [];
    if m.target == Production {
      if m.conformanceMode { failures := failures + [ConformanceInProduction]; }
      if m.vaultBackend == Memory { failures := failures + [MemoryInProduction]; }
    }
    if m.mutationDefaultEnabled { failures := failures + [MutationsOn(m.target.Name())]; }
    var names := RoleValues(m.secrets);
    if |Elements(names)| != |names| { failures := failures + [SecretsRepeat(m.target.Name())]; }
  }

  method CheckResources(manifests: seq<Manifest>) returns (failures: seq<Failure>)
    ensures failures == Flatten(SharingFailures(manifests))
  {
    ghost var lists := SharingFailures(manifests);
    failures := [];
    for key := 0 to 12
      invariant failures == Flatten(lists[..key])
    {
      FlattenStep(lists, key);
      var ledger := Record(Empty, ResourceClaims(manifests, key), true);
      failures := failures + ResourceFailures(ledger.shared, key);
    }
    assert lists[..12] == lists;
  }

  /** The owners of the secret references, manifest by manifest and role by role. */
  method CheckSecrets(manifests: seq<Manifest>) returns (failures: seq<Failure>)
    ensures failures == SecretFailures(Run(Empty, Flatten(SecretLists(manifests)), true).shared)
  {
    var ledger := Empty;
    for k := 0 to |manifests|
      invariant ledger == Run(Empty, Flatten(SecretLists(manifests)[..k]), true)
    {
      FlattenStep(SecretLists(manifests), k);
      RunConcat(Empty, Flatten(SecretLists(manifests)[..k]), SecretClaims(manifests[k]), true);
      ledger := Record(ledger, SecretClaims(manifests[k]), true);
    }
    assert SecretLists(manifests)[..|manifests|] == SecretLists(manifests);
    failures := SecretFailures(ledger.shared);
  }

  method ValidateEnvironmentSet(manifests: seq<Manifest>) returns (failures: seq<Failure>)
    ensures failures == Failures(manifests)
  {
    failures := if |Elements(Targets(manifests))| != |manifests| then [TargetsRepeat] else [];
    var own := CheckManifests(manifests);
    var resources := CheckResources(manifests);
    var secrets := CheckSecrets(manifests);
    failures := failures + own + resources + secrets;
  }

  // ----- what the failures mean

  /** Two (manifest, role) pairs that are not the same. */
  predicate OtherRole(i: nat, r: nat, j: nat, s: nat) {
    r < 9 && s < 9 && (i != j || r != s)
  }

  /** No two manifests have the same resource under the key. */
  ghost predicate Separate(manifests: seq<Manifest>, key: nat)
    requires key < 12
  {
    forall i, j :: 0 <= i < j < |manifests| ==> Resources(manifests[i])[key] != Resources(manifests[j])[key]
  }

  /** The environments share nothing, and none is unsafe. */
  ghost predicate Isolated(manifests: seq<Manifest>) {
    && (forall i, j :: 0 <= i < j < |manifests| ==> manifests[i].target != manifests[j].target)
    && (forall i :: 0 <= i < |manifests| ==> Safe(manifests[i]))
    && (forall key :: 0 <= key < 12 ==> Separate(manifests, key))
    && SecretsDistinct(manifests)
  }

  predicate Safe(m: Manifest) {
    && !m.mutationDefaultEnabled
    && (m.target == Production ==> !m.conformanceMode && m.vaultBackend == WorkOs)
  }

  ghost predicate SecretsDistinct(manifests: seq<Manifest>) {
    forall i, r, j, s :: 0 <= i < |manifests| && 0 <= j < |manifests| && 0 <= r && 0 <= s && OtherRole(i, r, j, s) ==>
      RoleValues(manifests[i].secrets)[r] != RoleValues(manifests[j].secrets)[s]
  }

  lemma NoOwnFailureIff(m: Manifest)
    ensures ManifestFailures(m) == [] <==> Safe(m) && Distinct(RoleValues(m.secrets))
  {
    SizeIffDistinct(RoleValues(m.secrets));
  }

  lemma ResourceSeparateIff(manifests: seq<Manifest>, key: nat)
    requires key < 12
    ensures FailuresUnder(manifests, key) == [] <==> Separate(manifests, key)
  {
    var claims := ResourceClaims(manifests, key);
    assert forall i :: 0 <= i < |claims| ==> (claims[i].owner != "");
    NothingSharedIff(claims, true);
    assert forall i :: 0 <= i < |manifests| ==> Values(claims)[i] == Resources(manifests[i])[key];
  }

  lemma NoResourceFailuresIff(manifests: seq<Manifest>)
    ensures Flatten(SharingFailures(manifests)) == [] <==> forall key :: 0 <= key < 12 ==> Separate(manifests, key)
  {
    var lists := SharingFailures(manifests);
    NothingToFlattenIff(lists);
    forall key | 0 <= key < 12 ensures lists[key] == [] <==> Separate(manifests, key) {
      ResourceSeparateIff(manifests, key);
    }
  }

  // ----- all (manifest, role) pairs in one list

  ghost predicate Nines(lists: seq<seq<Claim>>) {
    forall i :: 0 <= i < |lists| ==> |lists[i]| == 9
  }

  lemma {:induction false} JoinedLength(lists: seq<seq<Claim>>)
    requires Nines(lists)
    ensures |Flatten(lists)| == 9 * |lists|
  {
    if lists != [] { JoinedLength(lists[..|lists| - 1]); }
  }

  lemma {:induction false} JoinedAt(lists: seq<seq<Claim>>, i: nat, r: nat, at: nat)
    requires Nines(lists) && i < |lists| && r < 9 && at == 9 * i + r
    ensures at < |Flatten(lists)| && Flatten(lists)[at] == lists[i][r]
  {
    var front := lists[..|lists| - 1];
    JoinedLength(front);
    if i < |lists| - 1 { JoinedAt(front, i, r, at); }
  }

  lemma SplitIndex(at: nat, n: nat) returns (i: nat, r: nat)
    requires at < 9 * n
    ensures i < n && r < 9 && at == 9 * i + r
  {
    i, r := at / 9, at % 9;
  }

  ghost predicate PairsDistinct(lists: seq<seq<Claim>>)
    requires Nines(lists)
  {
    forall i, r, j, s :: 0 <= i < |lists| && 0 <= j < |lists| && 0 <= r && 0 <= s && OtherRole(i, r, j, s) ==>
      lists[i][r].value != lists[j][s].value
  }

  /** All claims differ exactly if those of any two pairs differ. */
  lemma JoinedDistinctIff(lists: seq<seq<Claim>>)
    requires Nines(lists)
    ensures Distinct(Values(Flatten(lists))) <==> PairsDistinct(lists)
  {
    var all := Flatten(lists);
    JoinedLength(lists);
    if Distinct(Values(all)) {
      forall i, r, j, s | 0 <= i < |lists| && 0 <= j < |lists| && 0 <= r && 0 <= s && OtherRole(i, r, j, s)
        ensures lists[i][r].value != lists[j][s].value
      {
        var p, q := 9 * i + r, 9 * j + s;
        JoinedAt(lists, i, r, p);
        JoinedAt(lists, j, s, q);
        assert p != q;
        assert Values(all)[p] != Values(all)[q];
      }
    }
    if PairsDistinct(lists) {
      forall p, q | 0 <= p < q < |all| ensures Values(all)[p] != Values(all)[q] {
        var i, r := SplitIndex(p, |lists|);
        var j, s := SplitIndex(q, |lists|);
        JoinedAt(lists, i, r, p);
        JoinedAt(lists, j, s, q);
        assert OtherRole(i, r, j, s);
      }
    }
  }

  ghost predicate AllNamed(lists: seq<seq<Claim>>) {
    forall i :: 0 <= i < |lists| ==> Named(lists[i])
  }

  lemma {:induction false} JoinedNamed(lists: seq<seq<Claim>>)
    requires AllNamed(lists)
    ensures Named(Flatten(lists))
  {
    if lists != [] { JoinedNamed(lists[..|lists| - 1]); }
  }

  lemma SecretsDistinctIff(manifests: seq<Manifest>)
    ensures Run(Empty, Flatten(SecretLists(manifests)), true).shared == [] <==> SecretsDistinct(manifests)
  {
    var lists := SecretLists(manifests);
    assert forall i :: 0 <= i < |lists| ==> (Named(lists[i]));
    JoinedNamed(lists);
    NothingSharedIff(Flatten(lists), true);
    JoinedDistinctIff(lists);
    assert forall i, r :: 0 <= i < |lists| && 0 <= r < 9 ==> lists[i][r].value == RoleValues(manifests[i].secrets)[r];
  }

  lemma TargetsDistinctIff(manifests: seq<Manifest>)
    ensures |Elements(Targets(manifests))| == |manifests|
      <==> forall i, j :: 0 <= i < j < |manifests| ==> manifests[i].target != manifests[j].target
  {
    SizeIffDistinct(Targets(manifests));
  }

  /** Secret references that differ over all manifests differ within each. */
  lemma WithinManifest(manifests: seq<Manifest>, i: nat)
    requires SecretsDistinct(manifests) && i < |manifests|
    ensures Distinct(RoleValues(manifests[i].secrets))
  {
    var values := RoleValues(manifests[i].secrets);
    forall r, s | 0 <= r < s < |values| ensures values[r] != values[s] {
      assert OtherRole(i, r, i, s);
    }
  }

  lemma OwnFailuresOfDistinct(manifests: seq<Manifest>)
    requires SecretsDistinct(manifests)
    ensures Flatten(OwnFailures(manifests)) == [] <==> forall i :: 0 <= i < |manifests| ==> Safe(manifests[i])
  {
    var lists := OwnFailures(manifests);
    NothingToFlattenIff(lists);
    forall i | 0 <= i < |manifests| ensures lists[i] == [] <==> Safe(manifests[i]) {
      WithinManifest(manifests, i);
      NoOwnFailureIff(manifests[i]);
    }
  }

  /** No failure is reported exactly if the environments are isolated. */
  lemma AcceptedIffIsolated(manifests: seq<Manifest>)
    ensures Failures(manifests) == [] <==> Isolated(manifests)
  {
    TargetsDistinctIff(manifests);
    NoResourceFailuresIff(manifests);
    SecretsDistinctIff(manifests);
    if SecretsDistinct(manifests) { OwnFailuresOfDistinct(manifests); }
  }
}
