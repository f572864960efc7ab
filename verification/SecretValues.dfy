/**
 The values of the secrets of all environments (scripts/workbench-environment.ts, lines
 296-323).
 */
module SecretValues {
  import opened Text
  import opened Order
  import opened Ownership
  import opened EnvironmentSet

  type Source = map<string, string>

  /** `source[variable]?.trim() ?? ""` */
  function ValueOf(source: Source, variable: string): string {
    if variable in source then Trim(source[variable]) else ""
  }

  /** The value of each role of a manifest. */
  function Held(m: Manifest, source: Source): (values: seq<string>)
    ensures |values| == 9
    ensures forall r :: 0 <= r < 9 ==> values[r] == ValueOf(source, RoleValues(m.secrets)[r])
  {
    seq(9, r requires 0 <= r < 9 => ValueOf(source, RoleValues(m.secrets)[r]))
  }

  datatype Failure =
    | Missing(target: string, role: nat)
    | TooShort(target: string, role: nat)
    | RolesRepeat(target: string)
    | ValueShared(sharing: Shared)

  function RoleFailures(target: string, values: seq<string>, n: nat): seq<Failure>
    requires n <= |values|
  {
    if n == 0 then []
    else
      RoleFailures(target, values, n - 1)
      + if values[n - 1] == "" then [Missing(target, n - 1)]
        else if |values[n - 1]| < 32 then [TooShort(target, n - 1)]
        else []
  }

  function RoleName(r: nat): string {
    if r < |RoleNames| then RoleNames[r] else ""
  }

  /** `${target} ${role}` */
  function OwnerName(target: string, r: nat): (name: string)
    ensures name != ""
  {
    target + " " + RoleName(r)
  }

  /** The claims of one manifest to the values it holds, among the first `n` roles. */
  function ValueClaims(target: string, values: seq<string>, n: nat): (claims: seq<Claim>)
    requires n <= |values|
    ensures Named(claims) && |claims| <= n
  {
    if n == 0 then []
    else ValueClaims(target, values, n - 1) + if values[n - 1] == "" then [] else [Claim(values[n - 1], OwnerName(target, n - 1))]
  }

  function SharedFailures(shared: seq<Shared>): (r: seq<Failure>)
    ensures |r| == |shared| && forall i :: 0 <= i < |shared| ==> r[i] == ValueShared(shared[i])
  {
    seq(|shared|, i requires 0 <= i < |shared| => ValueShared(shared[i]))
  }

  /** The failures so far, and the owners of the values so far. */
  datatype Pass = Pass(failures: seq<Failure>, owners: map<string, string>)

  function CheckOne(p: Pass, target: string, values: seq<string>): Pass {
    var claims := ValueClaims(target, values, |values|);
    var ledger := Run(Ledger(p.owners, []), claims, false);
    Pass(p.failures + RoleFailures(target, values, |values|)
         + (if |Elements(Values(claims))| != |claims| then [RolesRepeat(target)] else [])
         + SharedFailures(ledger.shared),
         ledger.owners)
  }

  function CheckAll(manifests: seq<Manifest>, source: Source): Pass {
    if manifests == [] then Pass([], map[])
    else
      var last := manifests[|manifests| - 1];
      CheckOne(CheckAll(manifests[..|manifests| - 1], source), last.target.Name(), Held(last, source))
  }

  method CheckRoles(target: string, values: seq<string>) returns (failures: seq<Failure>, claims: seq<Claim>)
    ensures failures == RoleFailures(target, values, |values|) && claims == ValueClaims(target, values, |values|)
  {
    failures, claims := [], [];
    for r := 0 to |values|
      invariant failures == RoleFailures(target, values, r) && claims == ValueClaims(target, values, r)
    {
      if values[r] == "" {
        failures := failures + [Missing(target, r)];
      } else {
        if |values[r]| < 32 { failures := failures + [TooShort(target, r)]; }
        claims := claims + [Claim(values[r], OwnerName(target, r))];
      }
    }
  }

  lemma CheckStep(manifests: seq<Manifest>, source: Source, k: nat)
    requires k < |manifests|
    ensures CheckAll(manifests[..k + 1], source)
         == CheckOne(CheckAll(manifests[..k], source), manifests[k].target.Name(), Held(manifests[k], source))
  {
    assert manifests[..k + 1][..k] == manifests[..k];
  }

  method ValidateSecretValues(manifests: seq<Manifest>, source: Source) returns (failures: seq<Failure>)
    ensures failures == CheckAll(manifests, source).failures
  {
    failures := [];
    var owners: map<string, string> := map[];
    for k := 0 to |manifests|
      invariant Pass(failures, owners) == CheckAll(manifests[..k], source)
    {
      CheckStep(manifests, source, k);
      var target := manifests[k].target.Name();
      var found, claims := CheckRoles(target, Held(manifests[k], source));
      failures := failures + found;
      if |Elements(Values(claims))| != |claims| { failures := failures + [RolesRepeat(target)]; }
      var ledger := Record(Ledger(owners, []), claims, false);
      failures, owners := failures + SharedFailures(ledger.shared), ledger.owners;
    }
    assert manifests[..|manifests|] == manifests;
  }

  // ----- what the failures mean

  predicate Usable(value: string) {
    value != "" && |value| >= 32
  }

  lemma {:induction false} NoRoleFailureIff(target: string, values: seq<string>, n: nat)
    requires n <= |values|
    ensures RoleFailures(target, values, n) == [] <==> forall r :: 0 <= r < n ==> Usable(values[r])
  {
    if n > 0 { NoRoleFailureIff(target, values, n - 1); }
  }

  lemma {:induction false} AllClaimed(target: string, values: seq<string>, n: nat)
    requires n <= |values| && forall r :: 0 <= r < n ==> values[r] != ""
    ensures |ValueClaims(target, values, n)| == n
    ensures forall r :: 0 <= r < n ==> ValueClaims(target, values, n)[r] == Claim(values[r], OwnerName(target, r))
  {
    if n > 0 {
      AllClaimed(target, values, n - 1);
      var before, last := ValueClaims(target, values, n - 1), Claim(values[n - 1], OwnerName(target, n - 1));
      assert ValueClaims(target, values, n) == before + [last];
      assert (before + [last])[n - 1] == last;
    }
  }

  /** What a run finds shared does not depend on what was found before it. */
  lemma {:induction false} RunFrom(l: Ledger, claims: seq<Claim>, takeOver: bool)
    ensures var r, r' := Run(l, claims, takeOver), Run(Ledger(l.owners, []), claims, takeOver);
      r.owners == r'.owners && r.shared == l.shared + r'.shared
  {
    if claims != [] { RunFrom(l, claims[..|claims| - 1], takeOver); }
  }

  function ClaimLists(manifests: seq<Manifest>, source: Source): (lists: seq<seq<Claim>>)
    ensures |lists| == |manifests|
    ensures forall i :: 0 <= i < |manifests| ==> lists[i] == ValueClaims(manifests[i].target.Name(), Held(manifests[i], source), 9)
  {
    seq(|manifests|, i requires 0 <= i < |manifests| => ValueClaims(manifests[i].target.Name(), Held(manifests[i], source), 9))
  }

  lemma ListsFront(manifests: seq<Manifest>, source: Source)
    requires manifests != []
    ensures var n := |manifests| - 1;
      Flatten(ClaimLists(manifests, source)) == Flatten(ClaimLists(manifests[..n], source)) + ClaimLists(manifests, source)[n]
  {
    var n := |manifests| - 1;
    assert ClaimLists(manifests, source)[..n] == ClaimLists(manifests[..n], source);
  }

  /** One more list of claims, after all those before it. */
  lemma RunMore(before: seq<Claim>, claims: seq<Claim>)
    ensures var l, r := Run(Empty, before, false), Run(Empty, before + claims, false);
      var own := Run(Ledger(l.owners, []), claims, false);
      r.owners == own.owners && r.shared == l.shared + own.shared
  {
    RunConcat(Empty, before, claims, false);
    RunFrom(Run(Empty, before, false), claims, false);
  }

  /** The owners kept from manifest to manifest are those of one run over all claims. */
  lemma {:induction false} OwnersFlow(manifests: seq<Manifest>, source: Source)
    ensures CheckAll(manifests, source).owners == Run(Empty, Flatten(ClaimLists(manifests, source)), false).owners
  {
    if manifests != [] {
      var n := |manifests| - 1;
      OwnersFlow(manifests[..n], source);
      ListsFront(manifests, source);
      RunMore(Flatten(ClaimLists(manifests[..n], source)), ClaimLists(manifests, source)[n]);
    }
  }

  /** All roles hold usable values, and no two the same. */
  ghost predicate GoodAlone(target: string, values: seq<string>) {
    && (forall r :: 0 <= r < |values| ==> Usable(values[r]))
    && Distinct(Values(ValueClaims(target, values, |values|)))
  }

  lemma NothingNewIff(p: Pass, target: string, values: seq<string>)
    ensures CheckOne(p, target, values).failures == []
      <==> p.failures == [] && GoodAlone(target, values)
           && Run(Ledger(p.owners, []), ValueClaims(target, values, |values|), false).shared == []
  {
    NoRoleFailureIff(target, values, |values|);
    SizeIffDistinct(Values(ValueClaims(target, values, |values|)));
  }

  ghost predicate GoodManifest(m: Manifest, source: Source) {
    GoodAlone(m.target.Name(), Held(m, source))
  }

  ghost predicate AllGoodAlone(manifests: seq<Manifest>, source: Source) {
    All(m => GoodManifest(m, source), manifests)
  }

  lemma {:induction false} FailuresFlow(manifests: seq<Manifest>, source: Source)
    ensures CheckAll(manifests, source).failures == []
      <==> AllGoodAlone(manifests, source) && Run(Empty, Flatten(ClaimLists(manifests, source)), false).shared == []
  {
    if manifests != [] {
      var n := |manifests| - 1;
      var front, last := manifests[..n], manifests[n];
      FailuresFlow(front, source);
      OwnersFlow(front, source);
      ListsFront(manifests, source);
      RunMore(Flatten(ClaimLists(front, source)), ClaimLists(manifests, source)[n]);
      AllFront(m => GoodManifest(m, source), manifests);
      NothingNewIff(CheckAll(front, source), last.target.Name(), Held(last, source));
    }
  }

  /** Every role of every environment holds a usable value. */
  ghost predicate AllUsable(manifests: seq<Manifest>, source: Source) {
    forall i, r :: 0 <= i < |manifests| && 0 <= r < 9 ==> Usable(Held(manifests[i], source)[r])
  }

  /** No value is held twice, in one environment or in two. */
  ghost predicate AllDifferent(manifests: seq<Manifest>, source: Source) {
    forall i, r, j, s :: 0 <= i < |manifests| && 0 <= j < |manifests| && 0 <= r && 0 <= s && OtherRole(i, r, j, s) ==>
      Held(manifests[i], source)[r] != Held(manifests[j], source)[s]
  }

  lemma UsableClaims(manifests: seq<Manifest>, source: Source)
    requires AllUsable(manifests, source)
    ensures var lists := ClaimLists(manifests, source);
      && Nines(lists)
      && forall i, r :: 0 <= i < |lists| && 0 <= r < 9 ==> lists[i][r].value == Held(manifests[i], source)[r]
  {
    forall i | 0 <= i < |manifests|
      ensures var list := ClaimLists(manifests, source)[i];
        |list| == 9 && forall r :: 0 <= r < 9 ==> list[r].value == Held(manifests[i], source)[r]
    {
      AllClaimed(manifests[i].target.Name(), Held(manifests[i], source), 9);
    }
  }

  lemma ClaimsNamed(manifests: seq<Manifest>, source: Source)
    ensures Named(Flatten(ClaimLists(manifests, source)))
  {
    JoinedNamed(ClaimLists(manifests, source));
  }

  lemma UsableDistinctIff(manifests: seq<Manifest>, source: Source)
    requires AllUsable(manifests, source)
    ensures Run(Empty, Flatten(ClaimLists(manifests, source)), false).shared == [] <==> AllDifferent(manifests, source)
  {
    var lists := ClaimLists(manifests, source);
    ClaimsNamed(manifests, source);
    NothingSharedIff(Flatten(lists), false);
    UsableClaims(manifests, source);
    JoinedDistinctIff(lists);
  }

  lemma DifferentAlone(manifests: seq<Manifest>, source: Source, i: nat)
    requires AllUsable(manifests, source) && AllDifferent(manifests, source) && i < |manifests|
    ensures GoodAlone(manifests[i].target.Name(), Held(manifests[i], source))
  {
    var target, values := manifests[i].target.Name(), Held(manifests[i], source);
    AllClaimed(target, values, 9);
    forall r, s | 0 <= r < s < 9 ensures values[r] != values[s] {
      assert OtherRole(i, r, i, s);
    }
  }

  /** No failure is reported exactly if all trimmed values are present, at least 32
      characters long, and distinct over all (environment, role) pairs. */
  lemma AcceptedIffDistinctValues(manifests: seq<Manifest>, source: Source)
    ensures CheckAll(manifests, source).failures == [] <==> AllUsable(manifests, source) && AllDifferent(manifests, source)
  {
    FailuresFlow(manifests, source);
    if AllGoodAlone(manifests, source) { UsableAlone(manifests, source); }
    if AllUsable(manifests, source) {
      UsableDistinctIff(manifests, source);
      if AllDifferent(manifests, source) {
        forall i | 0 <= i < |manifests| ensures GoodManifest(manifests[i], source) {
          DifferentAlone(manifests, source, i);
        }
      }
    }
  }

  lemma UsableAlone(manifests: seq<Manifest>, source: Source)
    requires AllGoodAlone(manifests, source)
    ensures AllUsable(manifests, source)
  {
    forall i, r | 0 <= i < |manifests| && 0 <= r < 9 ensures Usable(Held(manifests[i], source)[r]) {
      assert GoodManifest(manifests[i], source);
    }
  }
}
