/**
 What acceptance by `validateLoadedModules` gives: ids distinct across all modules, a
 bijection between fly tools and runner tools, and independence of the order and of the
 presence of other modules (scripts/agent-pack-compiler.ts, lines 162-166, 239-348, 436).
 */
module PackProperties {
  import opened Text
  import opened Order
  import opened PackCompiler

  /** Package names and pack ids are not empty. */
  predicate Named(modules: seq<Module>) {
    forall m :: m in modules ==> m.package != "" && m.manifest.id != ""
  }

  /** All ids of a kind that the modules declare, in order. */
  function AllIds(kind: Kind, modules: seq<Module>): seq<string> {
    if modules == [] then []
    else AllIds(kind, modules[..|modules| - 1]) + IdsOf(kind, modules[|modules| - 1])
  }

  /** Claims that make the given ids, each with an owner that counts. */
  predicate Name(claims: seq<Claim>, ids: seq<string>) {
    |claims| == |ids| && forall i :: 0 <= i < |ids| ==> claims[i].id == ids[i] && claims[i].owner != ""
  }

  lemma ModuleNames(kind: Kind, m: Module)
    requires m.package != "" && m.manifest.id != ""
    ensures Name(ModuleClaims(kind, m), IdsOf(kind, m))
  {
  }

  lemma NameConcat(a: seq<Claim>, x: seq<string>, b: seq<Claim>, y: seq<string>)
    requires Name(a, x) && Name(b, y)
    ensures Name(a + b, x + y)
  {
  }

  lemma {:induction false} ClaimsAreIds(kind: Kind, modules: seq<Module>)
    requires Named(modules)
    ensures Name(AllClaims(kind, modules), AllIds(kind, modules))
  {
    if modules != [] {
      var front, last := modules[..|modules| - 1], modules[|modules| - 1];
      ClaimsAreIds(kind, front);
      ModuleNames(kind, last);
      NameConcat(AllClaims(kind, front), AllIds(kind, front), ModuleClaims(kind, last), IdsOf(kind, last));
    }
  }

  /** With names, the tables of owners decide whether the ids are pairwise distinct. */
  lemma UnclashingIffDistinct(kind: Kind, modules: seq<Module>)
    requires Named(modules)
    ensures Unclashing(AllClaims(kind, modules)) <==> Distinct(AllIds(kind, modules))
  {
    ClaimsAreIds(kind, modules);
    var claims, ids := AllClaims(kind, modules), AllIds(kind, modules);
    assert forall i :: 0 <= i < |ids| ==> claims[i].id == ids[i];
  }

  predicate AllDistinct(modules: seq<Module>) {
    forall kind: Kind :: Distinct(AllIds(kind, modules))
  }

  lemma AllUnclashingIffDistinct(modules: seq<Module>)
    requires Named(modules)
    ensures AllUnclashing(modules) <==> AllDistinct(modules)
  {
    forall kind: Kind ensures Unclashing(AllClaims(kind, modules)) <==> Distinct(AllIds(kind, modules)) {
      UnclashingIffDistinct(kind, modules);
    }
  }

  /** Acceptance with names is the modules' own checks, and pack ids, tool ids, workflow
      types and renderer kinds that are each distinct across all modules. */
  lemma AcceptedIffDistinct(sdk: Sdk, workbench: string, modules: seq<Module>)
    requires Named(modules)
    ensures WellFormed(sdk, workbench, modules)
       <==> sdk.parses(workbench) && AllLocalOk(sdk, workbench, modules) && AllDistinct(modules)
  {
    AllUnclashingIffDistinct(modules);
  }

  // ----- without names the order matters

  /** Schemas, versions and conformance inputs that the SDK finds in order. */
  function Lenient(): Sdk {
    Sdk(_ => true, (_, _) => false, (_, _, _) => true, (_, _) => true, _ => true, _ => true, (c: Contract) => c.id)
  }

  /** A module of one inline tool. */
  function OneTool(package: string, id: string, tool: string): Module {
    var runtime := Runtime(1, id, "1.0.0", "1.0.0");
    Module(package, package, "1.0.0",
           Manifest(2, "agent_pack", id, "1.0.0", "1.0.0", "", false, "none", [], [], [], [], [], []),
           runtime, runtime, runtime,
           [Tool(tool, "", "{}", "{}", ["ask"], "inline", "1", 1000, 0, "", Policy(false, ""), None, true)], [], [], [], [], [])
  }

  lemma OneToolPart(kind: Kind, package: string, id: string, tool: string, workbench: string)
    ensures PartOk(kind, Lenient(), workbench, OneTool(package, id, tool))
  {
  }

  lemma OneToolOk(package: string, id: string, tool: string, workbench: string)
    ensures LocalOk(Lenient(), workbench, OneTool(package, id, tool))
  {
    forall kind: Kind ensures PartOk(kind, Lenient(), workbench, OneTool(package, id, tool)) {
      OneToolPart(kind, package, id, tool, workbench);
    }
  }

  lemma ClaimsLast(kind: Kind, front: seq<Module>, m: Module)
    ensures AllClaims(kind, front + [m]) == AllClaims(kind, front) + ModuleClaims(kind, m)
  {
    assert (front + [m])[..|front|] == front;
  }

  lemma ClaimsFirst(kind: Kind, m: Module)
    ensures AllClaims(kind, [m]) == ModuleClaims(kind, m)
  {
    var none: seq<Module> := [];
    ClaimsLast(kind, none, m);
    assert none + [m] == [m];
  }

  lemma PairClaims(kind: Kind, a: Module, b: Module)
    ensures AllClaims(kind, [a, b]) == ModuleClaims(kind, a) + ModuleClaims(kind, b)
  {
    ClaimsFirst(kind, a);
    ClaimsLast(kind, [a], b);
    assert [a] + [b] == [a, b];
  }

  lemma OneToolClaims(kind: Kind, package: string, id: string, tool: string)
    ensures ModuleClaims(kind, OneTool(package, id, tool))
         == if kind.PackId? then [Claim(id, package)] else if kind.ToolId? then [Claim(tool, id)] else []
  {
  }

  /** At most one claim each: they clash only with one another. */
  lemma FewClaims(kind: Kind, a: Module, b: Module)
    requires |ModuleClaims(kind, a)| <= 1 && |ModuleClaims(kind, b)| <= 1
    requires forall c, d :: c in ModuleClaims(kind, a) && d in ModuleClaims(kind, b) && c.id == d.id ==> c.owner == ""
    ensures Unclashing(AllClaims(kind, [a, b]))
  {
    PairClaims(kind, a, b);
  }

  lemma UnnamedClaims(kind: Kind, a: Module, b: Module, p: string, q: string, id: string, tool: string)
    requires ModuleClaims(kind, a) == if kind.PackId? then [Claim("", p)] else if kind.ToolId? then [Claim(tool, "")] else []
    requires ModuleClaims(kind, b) == if kind.PackId? then [Claim(id, q)] else if kind.ToolId? then [Claim(tool, id)] else []
    requires id != ""
    ensures Unclashing(AllClaims(kind, [a, b]))
  {
    FewClaims(kind, a, b);
  }

  lemma UnnamedFirst(kind: Kind, p: string, q: string, id: string, tool: string)
    requires id != ""
    ensures Unclashing(AllClaims(kind, [OneTool(p, "", tool), OneTool(q, id, tool)]))
  {
    OneToolClaims(kind, p, "", tool);
    OneToolClaims(kind, q, id, tool);
    UnnamedClaims(kind, OneTool(p, "", tool), OneTool(q, id, tool), p, q, id, tool);
  }

  lemma UnnamedSecond(p: string, q: string, id: string, tool: string)
    requires id != ""
    ensures !Unclashing(AllClaims(ToolId, [OneTool(q, id, tool), OneTool(p, "", tool)]))
  {
    var a, b := OneTool(p, "", tool), OneTool(q, id, tool);
    PairClaims(ToolId, b, a);
    OneToolClaims(ToolId, q, id, tool);
    OneToolClaims(ToolId, p, "", tool);
    var claims := ModuleClaims(ToolId, b) + ModuleClaims(ToolId, a);
    assert claims[0] == Claim(tool, id) && claims[1] == Claim(tool, "");
  }

  /** An empty owner is forgotten: two modules with the same tool, one of which has no pack id, are
      accepted if that one comes first, and only then. */
  lemma EmptyOwnerForgotten(p: string, q: string, id: string, tool: string, workbench: string)
    requires id != ""
    ensures WellFormed(Lenient(), workbench, [OneTool(p, "", tool), OneTool(q, id, tool)])
    ensures !WellFormed(Lenient(), workbench, [OneTool(q, id, tool), OneTool(p, "", tool)])
  {
    OneToolOk(p, "", tool, workbench);
    OneToolOk(q, id, tool, workbench);
    forall kind: Kind ensures Unclashing(AllClaims(kind, [OneTool(p, "", tool), OneTool(q, id, tool)])) {
      UnnamedFirst(kind, p, q, id, tool);
    }
    UnnamedSecond(p, q, id, tool);
  }

  // ----- distinctness as a property of pairs of modules

  predicate Disjoint(a: seq<string>, b: seq<string>) {
    forall x :: x in a ==> x !in b
  }

  lemma DistinctParts(a: seq<string>, b: seq<string>)
    requires Distinct(a + b)
    ensures Distinct(a) && Distinct(b) && Disjoint(a, b)
  {
    var s := a + b;
    forall i, j | 0 <= i < j < |a| ensures a[i] != a[j] { assert s[i] != s[j]; }
    forall i, j | 0 <= i < j < |b| ensures b[i] != b[j] { assert s[|a| + i] != s[|a| + j]; }
    forall i, j | 0 <= i < |a| && 0 <= j < |b| ensures a[i] != b[j] { assert s[i] != s[|a| + j]; }
  }

  lemma DistinctConcat(a: seq<string>, b: seq<string>)
    ensures Distinct(a + b) <==> Distinct(a) && Distinct(b) && Disjoint(a, b)
  {
    if Distinct(a + b) {
      DistinctParts(a, b);
    } else if Distinct(a) && Distinct(b) && Disjoint(a, b) {
      DistinctWhole(a, b);
    }
  }

  lemma DistinctWhole(a: seq<string>, b: seq<string>)
    requires Distinct(a) && Distinct(b) && Disjoint(a, b)
    ensures Distinct(a + b)
  {
    var s := a + b;
    forall i, j | 0 <= i < j < |s| ensures s[i] != s[j] {
      if i < |a| <= j { assert s[i] in a && s[j] in b; }
    }
  }

  /** Each list is distinct, and no two share an id. */
  predicate PairsFit(lists: seq<seq<string>>) {
    && (forall i :: 0 <= i < |lists| ==> Distinct(lists[i]))
    && (forall i, j :: 0 <= i < j < |lists| ==> Disjoint(lists[i], lists[j]))
  }

  predicate FitsLast(front: seq<seq<string>>, last: seq<string>) {
    Distinct(last) && forall i :: 0 <= i < |front| ==> Disjoint(front[i], last)
  }

  lemma {:induction false} InFlatten(lists: seq<seq<string>>, x: string)
    ensures x in Flatten(lists) <==> exists i :: 0 <= i < |lists| && x in lists[i]
  {
    if lists != [] {
      var front := lists[..|lists| - 1];
      InFlatten(front, x);
      assert forall i :: 0 <= i < |front| ==> front[i] == lists[i];
    }
  }

  lemma DisjointFromAll(lists: seq<seq<string>>, ids: seq<string>)
    ensures Disjoint(Flatten(lists), ids) <==> forall i :: 0 <= i < |lists| ==> Disjoint(lists[i], ids)
  {
    forall x ensures x in Flatten(lists) <==> exists i :: 0 <= i < |lists| && x in lists[i] {
      InFlatten(lists, x);
    }
  }

  lemma PairsFitStep(all: seq<seq<string>>)
    requires all != []
    ensures var k := |all| - 1; PairsFit(all) <==> PairsFit(all[..k]) && FitsLast(all[..k], all[k])
  {
    var k := |all| - 1;
    var front := all[..k];
    assert forall i :: 0 <= i < k ==> front[i] == all[i];
    if PairsFit(front) && FitsLast(front, all[k]) {
      forall i, j | 0 <= i < j < |all| ensures Disjoint(all[i], all[j]) {
        assert Disjoint(front[i], if j < k then front[j] else all[k]);
      }
    }
  }

  lemma {:induction false} DistinctIffPairs(lists: seq<seq<string>>)
    ensures Distinct(Flatten(lists)) <==> PairsFit(lists)
  {
    if lists != [] {
      var k := |lists| - 1;
      var front, last := lists[..k], lists[k];
      DistinctIffPairs(front);
      DistinctConcat(Flatten(front), last);
      DisjointFromAll(front, last);
      PairsFitStep(lists);
    }
  }

  function IdLists(kind: Kind, modules: seq<Module>): (lists: seq<seq<string>>)
    ensures |lists| == |modules| && forall i :: 0 <= i < |modules| ==> lists[i] == IdsOf(kind, modules[i])
  {
    if modules == [] then []
    else IdLists(kind, modules[..|modules| - 1]) + [IdsOf(kind, modules[|modules| - 1])]
  }

  lemma {:induction false} AllIdsFlatten(kind: Kind, modules: seq<Module>)
    ensures AllIds(kind, modules) == Flatten(IdLists(kind, modules))
  {
    if modules != [] {
      var front := modules[..|modules| - 1];
      AllIdsFlatten(kind, front);
      assert IdLists(kind, modules)[..|front|] == IdLists(kind, front);
    }
  }

  // ----- any selection of accepted modules, in any order, is accepted

  /** Positions of `a`, each used once, that yield `b`. */
  predicate Picks(a: seq<Module>, b: seq<Module>, p: seq<nat>) {
    && |p| == |b|
    && (forall k :: 0 <= k < |p| ==> p[k] < |a| && b[k] == a[p[k]])
    && (forall i, j :: 0 <= i < j < |p| ==> p[i] != p[j])
  }

  function Lift(p: seq<nat>, i: nat): (q: seq<nat>)
    ensures |q| == |p| && forall k :: 0 <= k < |p| ==> q[k] == if p[k] < i then p[k] else p[k] + 1
  {
    seq(|p|, k requires 0 <= k < |p| => if p[k] < i then p[k] else p[k] + 1)
  }

  lemma SmallerBoth(a: multiset<Module>, b: multiset<Module>, x: Module)
    requires a + multiset{x} <= b + multiset{x}
    ensures a <= b
  {
    forall y ensures a[y] <= b[y] {
      assert (a + multiset{x})[y] <= (b + multiset{x})[y];
    }
  }

  lemma PicksMore(a: seq<Module>, front: seq<Module>, x: Module, i: nat, q: seq<nat>)
    requires i < |a| && a[i] == x && Picks(a[..i] + a[i + 1..], front, q)
    ensures Picks(a, front + [x], Lift(q, i) + [i])
  {
    var rest, p := a[..i] + a[i + 1..], Lift(q, i) + [i];
    assert forall k :: 0 <= k < |rest| ==> rest[k] == if k < i then a[k] else a[k + 1];
    assert forall k :: 0 <= k < |q| ==> p[k] == if q[k] < i then q[k] else q[k] + 1;
  }

  lemma {:induction false} Selection(a: seq<Module>, b: seq<Module>) returns (p: seq<nat>)
    requires multiset(b) <= multiset(a)
    ensures Picks(a, b, p)
  {
    if b == [] {
      p := [];
    } else {
      var front, x := b[..|b| - 1], b[|b| - 1];
      assert b == front + [x];
      assert x in multiset(b);
      var i :| 0 <= i < |a| && a[i] == x;
      var rest := a[..i] + a[i + 1..];
      assert a == a[..i] + [x] + a[i + 1..];
      assert multiset(a) == multiset(rest) + multiset{x};
      SmallerBoth(multiset(front), multiset(rest), x);
      var q := Selection(rest, front);
      PicksMore(a, front, x, i, q);
      p := Lift(q, i) + [i];
    }
  }

  lemma PicksFit(a: seq<seq<string>>, b: seq<seq<string>>, p: seq<nat>)
    requires |p| == |b| && forall k :: 0 <= k < |p| ==> p[k] < |a| && b[k] == a[p[k]]
    requires forall i, j :: 0 <= i < j < |p| ==> p[i] != p[j]
    requires PairsFit(a)
    ensures PairsFit(b)
  {
    forall i, j | 0 <= i < j < |b| ensures Disjoint(b[i], b[j]) {
      assert p[i] != p[j];
      if p[j] < p[i] { assert Disjoint(a[p[j]], a[p[i]]); }
    }
  }

  lemma PicksDistinct(kind: Kind, a: seq<Module>, b: seq<Module>, p: seq<nat>)
    requires Picks(a, b, p) && Distinct(AllIds(kind, a))
    ensures Distinct(AllIds(kind, b))
  {
    AllIdsFlatten(kind, a);
    AllIdsFlatten(kind, b);
    DistinctIffPairs(IdLists(kind, a));
    PicksFit(IdLists(kind, a), IdLists(kind, b), p);
    DistinctIffPairs(IdLists(kind, b));
  }

  lemma PicksAllDistinct(a: seq<Module>, b: seq<Module>, p: seq<nat>)
    requires Picks(a, b, p) && AllDistinct(a)
    ensures AllDistinct(b)
  {
    forall kind: Kind ensures Distinct(AllIds(kind, b)) {
      PicksDistinct(kind, a, b, p);
    }
  }

  lemma PicksLocalOk(sdk: Sdk, workbench: string, a: seq<Module>, b: seq<Module>, p: seq<nat>)
    requires Picks(a, b, p) && AllLocalOk(sdk, workbench, a) && Named(a)
    ensures AllLocalOk(sdk, workbench, b) && Named(b)
  {
  }

  /** Acceptance does not depend on the order of named modules, and dropping some of them
      never invalidates the rest. */
  lemma SelectionAccepted(sdk: Sdk, workbench: string, a: seq<Module>, b: seq<Module>)
    requires Named(a) && WellFormed(sdk, workbench, a) && multiset(b) <= multiset(a)
    ensures Named(b) && WellFormed(sdk, workbench, b)
  {
    var p := Selection(a, b);
    AcceptedIffDistinct(sdk, workbench, a);
    PicksAllDistinct(a, b, p);
    PicksLocalOk(sdk, workbench, a, b, p);
    AcceptedIffDistinct(sdk, workbench, b);
  }

  lemma PermutationInvariant(sdk: Sdk, workbench: string, a: seq<Module>, b: seq<Module>)
    requires Named(a) && multiset(a) == multiset(b)
    ensures WellFormed(sdk, workbench, a) <==> WellFormed(sdk, workbench, b)
  {
    assert forall m :: m in b ==> m in multiset(b) && m in multiset(a);
    if WellFormed(sdk, workbench, a) { SelectionAccepted(sdk, workbench, a, b); }
    if WellFormed(sdk, workbench, b) { SelectionAccepted(sdk, workbench, b, a); }
  }

  // ----- disabling entries, named or not

  /** The filter of `loadAgentModules`. */
  function Enabled(modules: seq<Module>, enabled: Module -> bool): seq<Module> {
    if modules == [] then []
    else
      var front, last := Enabled(modules[..|modules| - 1], enabled), modules[|modules| - 1];
      if enabled(last) then front + [last] else front
  }

  /** No claim of `b` is for an id that `a` holds. */
  predicate Compatible(a: seq<Claim>, b: seq<Claim>) {
    forall c, d :: c in a && d in b && c.id == d.id ==> c.owner == ""
  }

  lemma UnclashingParts(a: seq<Claim>, b: seq<Claim>)
    requires Unclashing(a + b)
    ensures Unclashing(a) && Unclashing(b) && Compatible(a, b)
  {
    var s := a + b;
    forall i, j | 0 <= i < j < |a| && a[i].id == a[j].id ensures a[i].owner == "" { assert s[i].id == s[j].id; }
    forall i, j | 0 <= i < j < |b| && b[i].id == b[j].id ensures b[i].owner == "" {
      assert s[|a| + i].id == s[|a| + j].id;
    }
    forall i, j | 0 <= i < |a| && 0 <= j < |b| && a[i].id == b[j].id ensures a[i].owner == "" {
      assert s[i].id == s[|a| + j].id;
    }
  }

  lemma UnclashingWhole(a: seq<Claim>, b: seq<Claim>)
    requires Unclashing(a) && Unclashing(b) && Compatible(a, b)
    ensures Unclashing(a + b)
  {
    var s := a + b;
    forall i, j | 0 <= i < j < |s| && s[i].id == s[j].id ensures s[i].owner == "" {
      if i < |a| <= j { assert s[i] in a && s[j] in b; }
    }
  }

  lemma {:induction false} EnabledUnclashing(kind: Kind, modules: seq<Module>, enabled: Module -> bool)
    requires Unclashing(AllClaims(kind, modules))
    ensures Unclashing(AllClaims(kind, Enabled(modules, enabled)))
    ensures forall c :: c in AllClaims(kind, Enabled(modules, enabled)) ==> c in AllClaims(kind, modules)
  {
    if modules != [] {
      var front, last := modules[..|modules| - 1], modules[|modules| - 1];
      UnclashingParts(AllClaims(kind, front), ModuleClaims(kind, last));
      EnabledUnclashing(kind, front, enabled);
      if enabled(last) {
        assert (Enabled(front, enabled) + [last])[..|Enabled(front, enabled)|] == Enabled(front, enabled);
        UnclashingWhole(AllClaims(kind, Enabled(front, enabled)), ModuleClaims(kind, last));
      }
    }
  }

  lemma EnabledAllUnclashing(modules: seq<Module>, enabled: Module -> bool)
    requires AllUnclashing(modules)
    ensures AllUnclashing(Enabled(modules, enabled))
  {
    forall kind: Kind ensures Unclashing(AllClaims(kind, Enabled(modules, enabled))) {
      EnabledUnclashing(kind, modules, enabled);
    }
  }

  lemma {:induction false} EnabledSubset(modules: seq<Module>, enabled: Module -> bool)
    ensures forall i :: 0 <= i < |Enabled(modules, enabled)| ==>
      Enabled(modules, enabled)[i] in modules && enabled(Enabled(modules, enabled)[i])
  {
    if modules != [] { EnabledSubset(modules[..|modules| - 1], enabled); }
  }

  /** Disabling entries of an accepted configuration leaves it accepted, named or not. */
  lemma DisablingKeepsAcceptance(sdk: Sdk, workbench: string, modules: seq<Module>, enabled: Module -> bool)
    requires WellFormed(sdk, workbench, modules)
    ensures WellFormed(sdk, workbench, Enabled(modules, enabled))
  {
    EnabledSubset(modules, enabled);
    EnabledAllUnclashing(modules, enabled);
  }

  // ----- order, named or not

  /** Each list of claims fits, and any two in their order. */
  predicate ClaimsFit(lists: seq<seq<Claim>>) {
    && (forall i :: 0 <= i < |lists| ==> Unclashing(lists[i]))
    && (forall i, j :: 0 <= i < j < |lists| ==> Compatible(lists[i], lists[j]))
  }

  predicate FitsAfter(front: seq<seq<Claim>>, last: seq<Claim>) {
    Unclashing(last) && forall i :: 0 <= i < |front| ==> Compatible(front[i], last)
  }

  lemma ClaimsFitStep(all: seq<seq<Claim>>)
    requires all != []
    ensures var k := |all| - 1; ClaimsFit(all) <==> ClaimsFit(all[..k]) && FitsAfter(all[..k], all[k])
  {
    var k := |all| - 1;
    var front := all[..k];
    assert forall i :: 0 <= i < k ==> front[i] == all[i];
    if ClaimsFit(front) && FitsAfter(front, all[k]) {
      forall i, j | 0 <= i < j < |all| ensures Compatible(all[i], all[j]) {
        assert Compatible(front[i], if j < k then front[j] else all[k]);
      }
    }
  }

  lemma {:induction false} InClaims(lists: seq<seq<Claim>>, c: Claim)
    ensures c in Flatten(lists) <==> exists i :: 0 <= i < |lists| && c in lists[i]
  {
    if lists != [] {
      var front := lists[..|lists| - 1];
      InClaims(front, c);
      assert forall i :: 0 <= i < |front| ==> front[i] == lists[i];
    }
  }

  lemma CompatibleWithAll(lists: seq<seq<Claim>>, claims: seq<Claim>)
    ensures Compatible(Flatten(lists), claims) <==> forall i :: 0 <= i < |lists| ==> Compatible(lists[i], claims)
  {
    forall c ensures c in Flatten(lists) <==> exists i :: 0 <= i < |lists| && c in lists[i] {
      InClaims(lists, c);
    }
  }

  lemma {:induction false} UnclashingIffFit(lists: seq<seq<Claim>>)
    ensures Unclashing(Flatten(lists)) <==> ClaimsFit(lists)
  {
    if lists != [] {
      var front, last := lists[..|lists| - 1], lists[|lists| - 1];
      UnclashingIffFit(front);
      UnclashingConcat(Flatten(front), last);
      CompatibleWithAll(front, last);
      ClaimsFitStep(lists);
    }
  }

  function ClaimLists(kind: Kind, modules: seq<Module>): (lists: seq<seq<Claim>>)
    ensures |lists| == |modules| && forall i :: 0 <= i < |modules| ==> lists[i] == ModuleClaims(kind, modules[i])
  {
    if modules == [] then []
    else ClaimLists(kind, modules[..|modules| - 1]) + [ModuleClaims(kind, modules[|modules| - 1])]
  }

  lemma {:induction false} AllClaimsFlatten(kind: Kind, modules: seq<Module>)
    ensures AllClaims(kind, modules) == Flatten(ClaimLists(kind, modules))
  {
    if modules != [] {
      var front, last := modules[..|modules| - 1], ModuleClaims(kind, modules[|modules| - 1]);
      AllClaimsFlatten(kind, front);
      FlattenLast(ClaimLists(kind, front), last);
    }
  }

  lemma FlattenLast(lists: seq<seq<Claim>>, last: seq<Claim>)
    ensures Flatten(lists + [last]) == Flatten(lists) + last
  {
    assert (lists + [last])[..|lists|] == lists;
  }

  /** No clash over all modules is no clash in any module and between any two. */
  lemma UnclashingModules(kind: Kind, modules: seq<Module>)
    ensures Unclashing(AllClaims(kind, modules)) <==> ClaimsFit(ClaimLists(kind, modules))
  {
    AllClaimsFlatten(kind, modules);
    UnclashingIffFit(ClaimLists(kind, modules));
  }

  lemma UnclashingConcat(a: seq<Claim>, b: seq<Claim>)
    ensures Unclashing(a + b) <==> Unclashing(a) && Unclashing(b) && Compatible(a, b)
  {
    if Unclashing(a + b) { UnclashingParts(a, b); }
    if Unclashing(a) && Unclashing(b) && Compatible(a, b) { UnclashingWhole(a, b); }
  }

  /** Two lists of claims fit in the reverse order, too. */
  predicate FitReversed(lists: seq<seq<Claim>>) {
    forall i, j :: 0 <= i < j < |lists| ==> Compatible(lists[j], lists[i])
  }

  /** No module that counts as an owner declares an id of a module before it. */
  predicate NoneRepeatedByName(modules: seq<Module>) {
    forall kind: Kind :: FitReversed(ClaimLists(kind, modules))
  }

  lemma PicksClaimsFit(a: seq<seq<Claim>>, b: seq<seq<Claim>>, p: seq<nat>)
    requires |p| == |b| && forall k :: 0 <= k < |p| ==> p[k] < |a| && b[k] == a[p[k]]
    requires forall i, j :: 0 <= i < j < |p| ==> p[i] != p[j]
    requires ClaimsFit(a) && FitReversed(a)
    ensures ClaimsFit(b)
  {
    forall i, j | 0 <= i < j < |b| ensures Compatible(b[i], b[j]) {
      assert p[i] != p[j];
      if p[i] < p[j] { assert Compatible(a[p[i]], a[p[j]]); } else { assert Compatible(a[p[i]], a[p[j]]); }
    }
  }

  lemma ReorderedUnclashing(kind: Kind, a: seq<Module>, b: seq<Module>, p: seq<nat>)
    requires Picks(a, b, p) && Unclashing(AllClaims(kind, a)) && FitReversed(ClaimLists(kind, a))
    ensures Unclashing(AllClaims(kind, b))
  {
    UnclashingModules(kind, a);
    UnclashingModules(kind, b);
    PicksClaimsFit(ClaimLists(kind, a), ClaimLists(kind, b), p);
  }

  lemma ReorderedAccepted(sdk: Sdk, workbench: string, a: seq<Module>, b: seq<Module>)
    requires WellFormed(sdk, workbench, a) && NoneRepeatedByName(a) && multiset(b) == multiset(a)
    ensures WellFormed(sdk, workbench, b)
  {
    var p := Selection(a, b);
    forall kind: Kind ensures Unclashing(AllClaims(kind, b)) {
      ReorderedUnclashing(kind, a, b, p);
    }
    assert forall i :: 0 <= i < |b| ==> b[i] == a[p[i]];
  }

  function Swapped(a: seq<Module>, i: nat, j: nat): (b: seq<Module>)
    requires i < j < |a|
    ensures |b| == |a|
  {
    a[i := a[j]][j := a[i]]
  }

  lemma SwappedIsReordered(a: seq<Module>, i: nat, j: nat)
    requires i < j < |a|
    ensures multiset(Swapped(a, i, j)) == multiset(a)
  {
    assert multiset(a[i := a[j]]) == multiset(a) - multiset{a[i]} + multiset{a[j]};
  }

  lemma SwapShows(kind: Kind, a: seq<Module>, i: nat, j: nat)
    requires i < j < |a| && Unclashing(AllClaims(kind, Swapped(a, i, j)))
    ensures Compatible(ClaimLists(kind, a)[j], ClaimLists(kind, a)[i])
  {
    var b := Swapped(a, i, j);
    UnclashingModules(kind, b);
    assert b[i] == a[j] && b[j] == a[i];
    assert Compatible(ClaimLists(kind, b)[i], ClaimLists(kind, b)[j]);
  }

  lemma AnyOrderReversed(sdk: Sdk, workbench: string, kind: Kind, a: seq<Module>)
    requires forall b :: multiset(b) == multiset(a) ==> WellFormed(sdk, workbench, b)
    ensures FitReversed(ClaimLists(kind, a))
  {
    forall i: nat, j: nat | i < j < |a| ensures Compatible(ClaimLists(kind, a)[j], ClaimLists(kind, a)[i]) {
      SwappedIsReordered(a, i, j);
      assert WellFormed(sdk, workbench, Swapped(a, i, j));
      SwapShows(kind, a, i, j);
    }
  }

  /** An accepted list is accepted in every order exactly if no module with a name declares an id
      that a module before it declares too. */
  lemma AcceptedInAnyOrderIff(sdk: Sdk, workbench: string, a: seq<Module>)
    requires WellFormed(sdk, workbench, a)
    ensures (forall b :: multiset(b) == multiset(a) ==> WellFormed(sdk, workbench, b)) <==> NoneRepeatedByName(a)
  {
    if NoneRepeatedByName(a) {
      forall b | multiset(b) == multiset(a) ensures WellFormed(sdk, workbench, b) {
        ReorderedAccepted(sdk, workbench, a, b);
      }
    }
    if forall b :: multiset(b) == multiset(a) ==> WellFormed(sdk, workbench, b) {
      forall kind: Kind ensures FitReversed(ClaimLists(kind, a)) {
        AnyOrderReversed(sdk, workbench, kind, a);
      }
    }
  }

  // ----- fly tools and runner tools

  /** Contracts that are written alike are alike. */
  ghost predicate Injective(write: Contract -> string) {
    forall c, d :: write(c) == write(d) ==> c == d
  }

  /** Fly tools and runner tools of a module match one to one, field by field of their contracts. */
  ghost predicate ToolBijection(m: Module) {
    && Distinct(Ids(m.tools)) && Distinct(Ids(m.runnerTools))
    && (forall t :: t in m.tools && t.transport == "fly" ==>
          exists r :: r in m.runnerTools && r.id == t.id && ContractOf(r) == ContractOf(t))
    && (forall r :: r in m.runnerTools ==>
          exists t :: t in m.tools && t.transport == "fly" && t.id == r.id && ContractOf(r) == ContractOf(t))
  }

  lemma {:induction false} FoundIs(tools: seq<Tool>, t: Tool)
    requires t in tools && Distinct(Ids(tools))
    ensures FindTool(tools, t.id) == Some(t)
  {
    var k := |tools| - 1;
    var i :| 0 <= i <= k && tools[i] == t;
    assert Ids(tools)[i] == t.id && Ids(tools)[k] == tools[k].id;
    if i < k {
      var front := tools[..k];
      assert front[i] == t;
      assert forall j :: 0 <= j < k ==> Ids(front)[j] == Ids(tools)[j];
      FoundIs(front, t);
    }
  }

  lemma ToolOfId(tools: seq<Tool>, id: string) returns (t: Tool)
    requires id in Ids(tools)
    ensures t in tools && t.id == id
  {
    var i :| 0 <= i < |tools| && Ids(tools)[i] == id;
    t := tools[i];
  }

  predicate Transported(sdk: Sdk, m: Module) {
    && Distinct(Ids(m.tools)) && Distinct(Ids(m.runnerTools))
    && (forall t :: t in m.tools ==> TransportOk(sdk, m, t))
    && (forall r :: r in m.runnerTools ==> r.id in Ids(m.tools))
  }

  lemma TransportedBijection(sdk: Sdk, m: Module)
    requires Transported(sdk, m) && Injective(sdk.write)
    ensures ToolBijection(m)
  {
    forall r | r in m.runnerTools
      ensures exists t :: t in m.tools && t.transport == "fly" && t.id == r.id && ContractOf(r) == ContractOf(t)
    {
      var t := ToolOfId(m.tools, r.id);
      FoundIs(m.runnerTools, r);
      assert TransportOk(sdk, m, t);
    }
    forall t | t in m.tools && t.transport == "fly"
      ensures exists r :: r in m.runnerTools && r.id == t.id && ContractOf(r) == ContractOf(t)
    {
      assert TransportOk(sdk, m, t);
      var r := FindTool(m.runnerTools, t.id).value;
    }
  }

  /** An accepted module's fly tools and runner tools match one to one; so every runner tool is a
      fly tool itself. */
  lemma AcceptedBijection(sdk: Sdk, workbench: string, m: Module)
    requires LocalOk(sdk, workbench, m) && Injective(sdk.write)
    ensures ToolBijection(m)
    ensures forall r :: r in m.runnerTools ==> r.transport == "fly"
  {
    assert PartOk(ToolId, sdk, workbench, m);
    TransportedBijection(sdk, m);
  }
}
