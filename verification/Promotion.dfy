/**
 The feature-promotion ladder (scripts/environment-command.ts, lines 41-225) and the
 collector that checks it (scripts/collect-release-evidence.ts, lines 56-118). Evidence
 files are keyed by what their path says.
 */
module Promotion {
  import opened Text

  datatype Target = Acceptance | Production

  datatype Stage = Disabled | RetainedData | Connections | Mutations

  datatype Phase = Migrate | Bootstrap | DeployCloudflare | DeployFly | DeployVercel

  function Rank(s: Stage): nat {
    match s
    case Disabled => 0
    case RetainedData => 1
    case Connections => 2
    case Mutations => 3
  }

  function Previous(s: Stage): Option<Stage> {
    match s
    case Disabled => None
    case RetainedData => Some(Disabled)
    case Connections => Some(RetainedData)
    case Mutations => Some(Connections)
  }

  datatype File =
    | PromotionFile(target: Target, commit: string, stage: Stage)
    | DeploymentFile(target: Target, commit: string, phase: Phase)
    | SecretFile(target: Target, commit: string)

  datatype Record = Record(target: Target, commit: string, stage: Stage, status: string, completedAt: int)

  type Store = map<File, Record>

  datatype Backup = Backup(target: Target, commit: string, hasChecksum: bool)

  /** One call of the script: its arguments, and what it finds around it. */
  datatype Command = Command(
    target: Target, phase: Phase, stage: Stage, commit: string,
    environmentValid: bool, execute: bool, confirmed: bool, cleanTree: bool, backup: Option<Backup>,
    succeeds: bool, now: int)

  predicate IsDeploy(phase: Phase) {
    phase.DeployCloudflare? || phase.DeployFly? || phase.DeployVercel?
  }

  /** Everything that stops a command before it runs. A dry run stops too. */
  predicate ArgumentsOk(c: Command) {
    && (c.stage != Disabled ==> c.phase == DeployCloudflare)
    && c.environmentValid && c.execute && c.confirmed && c.cleanTree
  }

  predicate BackupOk(c: Command) {
    c.phase == Migrate ==>
      c.backup.Some? && c.backup.value.target == c.target && c.backup.value.commit == c.commit && c.backup.value.hasChecksum
  }

  predicate SecretsOk(store: Store, c: Command) {
    IsDeploy(c.phase) ==>
      var f := SecretFile(c.target, c.commit);
      f in store && store[f].target == c.target && store[f].commit == c.commit && store[f].status == "configured"
  }

  predicate Promoted(store: Store, target: Target, commit: string, stage: Stage) {
    var f := PromotionFile(target, commit, stage);
    && f in store
    && store[f].target == target && store[f].commit == commit && store[f].stage == stage && store[f].status == "deployed"
  }

  predicate LadderOk(store: Store, c: Command) {
    c.phase == DeployCloudflare && c.stage != Disabled ==>
      Previous(c.stage).Some? && Promoted(store, c.target, c.commit, Previous(c.stage).value)
  }

  /** The command runs to its end and writes its evidence. */
  predicate Executes(store: Store, c: Command) {
    ArgumentsOk(c) && BackupOk(c) && SecretsOk(store, c) && LadderOk(store, c) && c.succeeds
  }

  function Evidence(c: Command): (File, Record) {
    (if c.phase == DeployCloudflare then PromotionFile(c.target, c.commit, c.stage) else DeploymentFile(c.target, c.commit, c.phase),
     Record(c.target, c.commit, c.stage, if c.phase == Bootstrap then "bootstrapped" else "deployed", c.now))
  }

  /** What happens to the store: a command, or provider secrets being configured. */
  datatype Event = Run(command: Command) | ConfigureSecrets(target: Target, commit: string, now: int)

  function Step(store: Store, e: Event): Store {
    match e
    case Run(c) => if Executes(store, c) then store[Evidence(c).0 := Evidence(c).1] else store
    case ConfigureSecrets(t, sha, now) => store[SecretFile(t, sha) := Record(t, sha, Disabled, "configured", now)]
  }

  function After(events: seq<Event>): Store {
    if events == [] then map[] else Step(After(events[..|events| - 1]), events[|events| - 1])
  }

  class EvidenceStore {
    var files: Store

    constructor ()
      ensures files == map[]
    {
      files := map[];
    }

    /** The script, guard by guard. */
    method RunCommand(c: Command) returns (executed: bool)
      modifies this
      ensures executed <==> Executes(old(files), c)
      ensures files == Step(old(files), Run(c))
    {
      if c.phase != DeployCloudflare && c.stage != Disabled { return false; }
      if !c.environmentValid { return false; }
      if !c.execute || !c.confirmed || !c.cleanTree { return false; }
      if c.phase == Migrate {
        if c.backup.None? { return false; }
        var backup := c.backup.value;
        if backup.target != c.target || backup.commit != c.commit || !backup.hasChecksum { return false; }
      }
      if IsDeploy(c.phase) {
        var secrets := SecretFile(c.target, c.commit);
        if secrets !in files { return false; }
        var evidence := files[secrets];
        if evidence.target != c.target || evidence.commit != c.commit || evidence.status != "configured" { return false; }
      }
      if c.phase == DeployCloudflare && c.stage != Disabled {
        var previous := Previous(c.stage);
        if previous.None? { return false; }
        var file := PromotionFile(c.target, c.commit, previous.value);
        if file !in files { return false; }
        var record := files[file];
        if record.target != c.target || record.commit != c.commit || record.stage != previous.value || record.status != "deployed" {
          return false;
        }
      }
      if !c.succeeds { return false; }
      var (path, content) := Evidence(c);
      files := files[path := content];
      return true;
    }

    /** Configuring secrets opens the gate of every deployment of that target and commit. */
    method Configure(target: Target, commit: string, now: int)
      modifies this
      ensures forall c: Command :: c.target == target && c.commit == commit ==> SecretsOk(files, c)
      ensures files == Step(old(files), ConfigureSecrets(target, commit, now))
    {
      files := files[SecretFile(target, commit) := Record(target, commit, Disabled, "configured", now)];
    }
  }

  // ----- the gate of the secrets

  /** Secrets were configured for this target and commit. */
  predicate EverConfigured(events: seq<Event>, target: Target, commit: string) {
    exists i :: 0 <= i < |events| && Configures(events[i], target, commit)
  }

  predicate Configures(e: Event, target: Target, commit: string) {
    e.ConfigureSecrets? && e.target == target && e.commit == commit
  }

  lemma {:induction false} SecretFileIff(events: seq<Event>, target: Target, commit: string)
    ensures var f, store := SecretFile(target, commit), After(events);
      && (f in store <==> EverConfigured(events, target, commit))
      && (f in store ==> store[f].target == target && store[f].commit == commit && store[f].status == "configured")
  {
    if events != [] {
      var k := |events| - 1;
      SecretFileIff(events[..k], target, commit);
      assert forall i :: 0 <= i < k ==> events[..k][i] == events[i];
      assert EverConfigured(events, target, commit)
        <==> EverConfigured(events[..k], target, commit) || Configures(events[k], target, commit);
    }
  }

  /** In every run the gate of a deployment is open exactly if secrets were configured
      before for its target and commit; no command opens or closes it. */
  lemma SecretGateIff(events: seq<Event>, c: Command)
    requires IsDeploy(c.phase)
    ensures SecretsOk(After(events), c) <==> EverConfigured(events, c.target, c.commit)
  {
    SecretFileIff(events, c.target, c.commit);
  }

  // ----- the ladder: what every run keeps

  /** Promotion evidence is valid, complete below, and backed by secret evidence. */
  ghost predicate Ladder(store: Store) {
    forall t, sha, s :: PromotionFile(t, sha, s) in store ==>
      && Promoted(store, t, sha, s)
      && (forall lower :: Rank(lower) < Rank(s) ==> Promoted(store, t, sha, lower))
      && SecretFile(t, sha) in store
  }

  lemma StepKeepsLadder(store: Store, e: Event)
    requires Ladder(store)
    ensures Ladder(Step(store, e))
  {
    var store' := Step(store, e);
    forall t, sha, s | PromotionFile(t, sha, s) in store'
      ensures Promoted(store', t, sha, s)
      ensures SecretFile(t, sha) in store'
      ensures forall lower :: Rank(lower) < Rank(s) ==> Promoted(store', t, sha, lower)
    {
      forall lower | Rank(lower) < Rank(s) ensures Promoted(store', t, sha, lower) {
        if PromotionFile(t, sha, s) in store {
          assert Promoted(store, t, sha, lower);
        } else {
          assert PromotionFile(t, sha, Previous(s).value) in store;
        }
      }
    }
  }

  /** In every run the promotion evidence of a target and commit is closed downward in
      disabled, retained-data, connections, mutations, and implies secret evidence. A
      bootstrap writes no promotion evidence, so it never counts. */
  lemma {:induction false} EveryRunKeepsLadder(events: seq<Event>)
    ensures Ladder(After(events))
  {
    if events != [] {
      EveryRunKeepsLadder(events[..|events| - 1]);
      StepKeepsLadder(After(events[..|events| - 1]), events[|events| - 1]);
    }
  }

  // ----- the collector: promotion order

  function Required(target: Target): seq<Stage> {
    if target.Acceptance? then [Disabled, RetainedData, Connections, Mutations]
    else [Disabled, RetainedData, Connections]
  }

  /** Each stage has valid evidence, no earlier than the stage before it. */
  predicate InOrder(store: Store, target: Target, commit: string, stages: seq<Stage>) {
    && (forall i :: 0 <= i < |stages| ==>
          Promoted(store, target, commit, stages[i]) && TimeOf(store, target, commit, stages[i]) >= 0)
    && forall i, j :: 0 <= i < j < |stages| ==>
          TimeOf(store, target, commit, stages[i]) <= TimeOf(store, target, commit, stages[j])
  }

  function TimeOf(store: Store, target: Target, commit: string, stage: Stage): int {
    var f := PromotionFile(target, commit, stage);
    if f in store then store[f].completedAt else 0
  }

  lemma InOrderStep(store: Store, target: Target, commit: string, stages: seq<Stage>, k: nat)
    requires k < |stages| && InOrder(store, target, commit, stages[..k])
    ensures var t := TimeOf(store, target, commit, stages[k]);
      InOrder(store, target, commit, stages[..k + 1])
      <==> Promoted(store, target, commit, stages[k]) && t >= (if k == 0 then 0 else TimeOf(store, target, commit, stages[k - 1]))
  {
    var front, more := stages[..k], stages[..k + 1];
    assert forall i :: 0 <= i < k ==> front[i] == stages[i] && more[i] == stages[i];
    if k > 0 {
      assert TimeOf(store, target, commit, front[k - 1]) >= 0;
      assert more[k - 1] == stages[k - 1] && more[k] == stages[k];
    }
  }

  method CollectStages(store: Store, target: Target, commit: string, stages: seq<Stage>) returns (ok: bool)
    ensures ok <==> InOrder(store, target, commit, stages)
  {
    var previous := 0;
    for k := 0 to |stages|
      invariant InOrder(store, target, commit, stages[..k])
      invariant previous == if k == 0 then 0 else TimeOf(store, target, commit, stages[k - 1])
    {
      InOrderStep(store, target, commit, stages, k);
      var f := PromotionFile(target, commit, stages[k]);
      if f !in store || store[f].target != target || store[f].commit != commit || store[f].stage != stages[k]
        || store[f].status != "deployed" || store[f].completedAt < previous {
        return false;
      }
      previous := store[f].completedAt;
    }
    assert stages[..|stages|] == stages;
    return true;
  }

  /** The promotion check of the collector. */
  method CollectPromotions(store: Store, target: Target, commit: string) returns (ok: bool)
    ensures ok <==> InOrder(store, target, commit, Required(target))
  {
    ok := CollectStages(store, target, commit, Required(target));
  }

  // ----- runs and the order of promotion

  /** Event `i` of the run deploys this stage. */
  predicate Deploys(events: seq<Event>, i: int, target: Target, commit: string, stage: Stage) {
    && 0 <= i < |events| && events[i].Run?
    && events[i].command.phase == DeployCloudflare
    && events[i].command.target == target && events[i].command.commit == commit && events[i].command.stage == stage
    && Executes(After(events[..i]), events[i].command)
  }

  /** The clock of a run never runs back. */
  predicate Clocked(events: seq<Event>) {
    && (forall i :: 0 <= i < |events| ==> Now(events[i]) >= 0)
    && forall i, j :: 0 <= i < j < |events| ==> Now(events[i]) <= Now(events[j])
  }

  function Now(e: Event): int {
    match e
    case Run(c) => c.now
    case ConfigureSecrets(_, _, now) => now
  }

  /** Event `i` is the last that deploys this stage. */
  ghost predicate LastDeploy(events: seq<Event>, i: int, target: Target, commit: string, stage: Stage) {
    && Deploys(events, i, target, commit, stage)
    && forall j :: j > i ==> !Deploys(events, j, target, commit, stage)
  }

  lemma DeploysFront(events: seq<Event>, j: int, target: Target, commit: string, stage: Stage)
    requires events != [] && j < |events| - 1
    ensures Deploys(events[..|events| - 1], j, target, commit, stage) <==> Deploys(events, j, target, commit, stage)
  {
    if j >= 0 { assert events[..|events| - 1][..j] == events[..j]; }
  }

  lemma LastDeployStays(events: seq<Event>, i: int, target: Target, commit: string, stage: Stage)
    requires events != [] && LastDeploy(events[..|events| - 1], i, target, commit, stage)
    requires !Deploys(events, |events| - 1, target, commit, stage)
    ensures LastDeploy(events, i, target, commit, stage)
  {
    forall j | j < |events| - 1
      ensures Deploys(events[..|events| - 1], j, target, commit, stage) <==> Deploys(events, j, target, commit, stage)
    {
      DeploysFront(events, j, target, commit, stage);
    }
  }

  /** Any other event leaves the evidence file of a stage as it is. */
  lemma FileStays(events: seq<Event>, target: Target, commit: string, stage: Stage)
    requires events != [] && !Deploys(events, |events| - 1, target, commit, stage)
    requires PromotionFile(target, commit, stage) in After(events)
    ensures var before := After(events[..|events| - 1]);
      PromotionFile(target, commit, stage) in before
      && TimeOf(before, target, commit, stage) == TimeOf(After(events), target, commit, stage)
  {
  }

  /** The evidence file of a stage is that of its last deployment. */
  lemma {:induction false} FileIsLastDeploy(events: seq<Event>, target: Target, commit: string, stage: Stage) returns (i: int)
    requires PromotionFile(target, commit, stage) in After(events)
    ensures LastDeploy(events, i, target, commit, stage)
    ensures TimeOf(After(events), target, commit, stage) == Now(events[i])
  {
    var k := |events| - 1;
    if Deploys(events, k, target, commit, stage) {
      i := k;
    } else {
      FileStays(events, target, commit, stage);
      i := FileIsLastDeploy(events[..k], target, commit, stage);
      LastDeployStays(events, i, target, commit, stage);
    }
  }

  lemma {:induction false} DeployedHasFile(events: seq<Event>, i: int, target: Target, commit: string, stage: Stage)
    requires Deploys(events, i, target, commit, stage)
    ensures PromotionFile(target, commit, stage) in After(events)
  {
    var k := |events| - 1;
    if i < k {
      var front := events[..k];
      assert front[i] == events[i] && front[..i] == events[..i];
      DeployedHasFile(front, i, target, commit, stage);
    }
  }

  ghost predicate EverDeployed(events: seq<Event>, target: Target, commit: string, stage: Stage) {
    exists i :: LastDeploy(events, i, target, commit, stage)
  }

  /** The last deployment of the one stage is no later than that of the other. */
  ghost predicate DeployedInOrder(events: seq<Event>, target: Target, commit: string, s: Stage, s': Stage) {
    forall i, j :: LastDeploy(events, i, target, commit, s) && LastDeploy(events, j, target, commit, s')
      ==> Now(events[i]) <= Now(events[j])
  }

  lemma PromotedIffDeployed(events: seq<Event>, target: Target, commit: string, stage: Stage)
    ensures Promoted(After(events), target, commit, stage) <==> EverDeployed(events, target, commit, stage)
  {
    EveryRunKeepsLadder(events);
    if Promoted(After(events), target, commit, stage) {
      var i := FileIsLastDeploy(events, target, commit, stage);
    } else if EverDeployed(events, target, commit, stage) {
      var i :| LastDeploy(events, i, target, commit, stage);
      DeployedHasFile(events, i, target, commit, stage);
    }
  }

  lemma TimeIsLast(events: seq<Event>, i: int, target: Target, commit: string, stage: Stage)
    requires LastDeploy(events, i, target, commit, stage)
    ensures TimeOf(After(events), target, commit, stage) == Now(events[i])
  {
    DeployedHasFile(events, i, target, commit, stage);
    var j := FileIsLastDeploy(events, target, commit, stage);
    assert j == i;
  }

  lemma TimesOrderedIff(events: seq<Event>, target: Target, commit: string, s: Stage, s': Stage)
    requires EverDeployed(events, target, commit, s) && EverDeployed(events, target, commit, s')
    ensures TimeOf(After(events), target, commit, s) <= TimeOf(After(events), target, commit, s')
       <==> DeployedInOrder(events, target, commit, s, s')
  {
    var i :| LastDeploy(events, i, target, commit, s);
    var j :| LastDeploy(events, j, target, commit, s');
    TimeIsLast(events, i, target, commit, s);
    TimeIsLast(events, j, target, commit, s');
    forall k | LastDeploy(events, k, target, commit, s) ensures k == i { LastUnique(events, k, i, target, commit, s); }
    forall k | LastDeploy(events, k, target, commit, s') ensures k == j { LastUnique(events, k, j, target, commit, s'); }
  }

  lemma LastUnique(events: seq<Event>, i: int, j: int, target: Target, commit: string, stage: Stage)
    requires LastDeploy(events, i, target, commit, stage) && LastDeploy(events, j, target, commit, stage)
    ensures i == j
  {
  }

  lemma TimeNotNegative(events: seq<Event>, target: Target, commit: string, stage: Stage)
    requires Clocked(events)
    ensures TimeOf(After(events), target, commit, stage) >= 0
  {
    if PromotionFile(target, commit, stage) in After(events) {
      var i := FileIsLastDeploy(events, target, commit, stage);
    }
  }

  /** The collector accepts a run exactly if every required stage was deployed and the
      last deployments of the stages come in the order of the stages. */
  lemma CollectorIff(events: seq<Event>, target: Target, commit: string, stages: seq<Stage>)
    requires Clocked(events)
    ensures InOrder(After(events), target, commit, stages)
       <==> (&& (forall k :: 0 <= k < |stages| ==> EverDeployed(events, target, commit, stages[k]))
             && forall k, l :: 0 <= k < l < |stages| ==> DeployedInOrder(events, target, commit, stages[k], stages[l]))
  {
    var store := After(events);
    forall k | 0 <= k < |stages|
      ensures TimeOf(store, target, commit, stages[k]) >= 0
      ensures Promoted(store, target, commit, stages[k]) <==> EverDeployed(events, target, commit, stages[k])
    {
      TimeNotNegative(events, target, commit, stages[k]);
      PromotedIffDeployed(events, target, commit, stages[k]);
    }
    forall k, l | 0 <= k < l < |stages|
        && EverDeployed(events, target, commit, stages[k]) && EverDeployed(events, target, commit, stages[l])
      ensures TimeOf(store, target, commit, stages[k]) <= TimeOf(store, target, commit, stages[l])
         <==> DeployedInOrder(events, target, commit, stages[k], stages[l])
    {
      TimesOrderedIff(events, target, commit, stages[k], stages[l]);
    }
  }

  /** The run never deploys an earlier stage after a later one. */
  ghost predicate NeverReturns(events: seq<Event>, target: Target, commit: string) {
    forall i, j, s, s' :: i < j && Deploys(events, i, target, commit, s) && Deploys(events, j, target, commit, s')
      ==> Rank(s) <= Rank(s')
  }

  lemma OrderedByRank(events: seq<Event>, target: Target, commit: string, s: Stage, s': Stage)
    requires Clocked(events) && NeverReturns(events, target, commit) && Rank(s) < Rank(s')
    ensures DeployedInOrder(events, target, commit, s, s')
  {
    forall i, j | LastDeploy(events, i, target, commit, s) && LastDeploy(events, j, target, commit, s')
      ensures Now(events[i]) <= Now(events[j])
    {
      assert i <= j;
    }
  }

  lemma LowerDeployed(events: seq<Event>, target: Target, commit: string, s: Stage, last: Stage)
    requires PromotionFile(target, commit, last) in After(events) && Rank(s) <= Rank(last)
    ensures EverDeployed(events, target, commit, s)
  {
    EveryRunKeepsLadder(events);
    assert s == last || Promoted(After(events), target, commit, s);
    PromotedIffDeployed(events, target, commit, s);
  }

  function FinalStage(target: Target): Stage {
    if target.Acceptance? then Mutations else Connections
  }

  predicate Ascending(stages: seq<Stage>, last: Stage) {
    && (forall k :: 0 <= k < |stages| ==> Rank(stages[k]) <= Rank(last))
    && forall k, l :: 0 <= k < l < |stages| ==> Rank(stages[k]) < Rank(stages[l])
  }

  lemma RequiredAscends(target: Target)
    ensures Ascending(Required(target), FinalStage(target))
  {
  }

  lemma AscendingIsAccepted(events: seq<Event>, target: Target, commit: string, stages: seq<Stage>, last: Stage)
    requires Clocked(events) && NeverReturns(events, target, commit) && Ascending(stages, last)
    requires PromotionFile(target, commit, last) in After(events)
    ensures InOrder(After(events), target, commit, stages)
  {
    forall k | 0 <= k < |stages| ensures EverDeployed(events, target, commit, stages[k]) {
      LowerDeployed(events, target, commit, stages[k], last);
    }
    forall k, l | 0 <= k < l < |stages| ensures DeployedInOrder(events, target, commit, stages[k], stages[l]) {
      OrderedByRank(events, target, commit, stages[k], stages[l]);
    }
    CollectorIff(events, target, commit, stages);
  }

  /** A run that never returns to an earlier stage is accepted as soon as it has deployed
      the last required stage. */
  lemma NeverReturningIsAccepted(events: seq<Event>, target: Target, commit: string, i: int)
    requires Clocked(events) && NeverReturns(events, target, commit)
    requires Deploys(events, i, target, commit, FinalStage(target))
    ensures InOrder(After(events), target, commit, Required(target))
  {
    DeployedHasFile(events, i, target, commit, FinalStage(target));
    RequiredAscends(target);
    AscendingIsAccepted(events, target, commit, Required(target), FinalStage(target));
  }

  // ----- the collector: the latest record of each kind

  /** An evidence record; `completedAt` is what `Date.parse` makes of its time. */
  datatype Report = Report(kind: string, passed: bool, completedAt: Option<int>)

  predicate Later(a: Report, b: Report) {
    a.completedAt.Some? && b.completedAt.Some? && a.completedAt.value > b.completedAt.value
  }

  function Latest(reports: seq<Report>): map<string, Report> {
    if reports == [] then map[]
    else
      var before, r := Latest(reports[..|reports| - 1]), reports[|reports| - 1];
      if r.kind !in before || Later(r, before[r.kind]) then before[r.kind := r] else before
  }

  /** Record `i` is the first of its kind. */
  predicate FirstOf(reports: seq<Report>, kind: string, i: nat) {
    i < |reports| && reports[i].kind == kind && forall j :: 0 <= j < i ==> reports[j].kind != kind
  }

  /** Record `i` has a time that can be read, no record of its kind is later, and none
      before it is as late. */
  predicate LatestReadable(reports: seq<Report>, kind: string, i: nat) {
    && i < |reports| && reports[i].kind == kind && reports[i].completedAt.Some?
    && (forall j :: 0 <= j < |reports| && reports[j].kind == kind && reports[j].completedAt.Some?
          ==> reports[j].completedAt.value <= reports[i].completedAt.value)
    && forall j :: 0 <= j < i && reports[j].kind == kind && reports[j].completedAt.Some?
         ==> reports[j].completedAt.value < reports[i].completedAt.value
  }

  /** The record that decides about a kind: the first one, if its time cannot be read, and
      otherwise the latest of those whose time can. */
  ghost predicate Decides(reports: seq<Report>, kind: string, i: nat) {
    exists f: nat :: FirstOf(reports, kind, f) && if reports[f].completedAt.None? then i == f else LatestReadable(reports, kind, i)
  }

  ghost predicate Passes(reports: seq<Report>, kind: string) {
    exists i: nat :: Decides(reports, kind, i) && reports[i].passed
  }

  lemma DecidesInRange(reports: seq<Report>, kind: string, i: nat)
    requires Decides(reports, kind, i)
    ensures i < |reports| && reports[i].kind == kind
  {
  }

  /** Some record keeps its place when another follows it. */
  lemma FirstStays(reports: seq<Report>, r: Report, kind: string, f: nat)
    requires FirstOf(reports, kind, f)
    ensures FirstOf(reports + [r], kind, f)
  {
    assert forall j :: 0 <= j < |reports| ==> (reports + [r])[j] == reports[j];
  }

  lemma LatestStays(reports: seq<Report>, r: Report, kind: string, i: nat)
    requires LatestReadable(reports, kind, i) && (r.kind == kind ==> !Later(r, reports[i]))
    ensures LatestReadable(reports + [r], kind, i)
  {
    var more := reports + [r];
    assert forall j :: 0 <= j < |reports| ==> more[j] == reports[j];
  }

  lemma LatestMoves(reports: seq<Report>, r: Report, kind: string, i: nat)
    requires LatestReadable(reports, kind, i) && r.kind == kind && Later(r, reports[i])
    ensures LatestReadable(reports + [r], kind, |reports|)
  {
    var more := reports + [r];
    assert forall j :: 0 <= j < |reports| ==> more[j] == reports[j];
    assert more[|reports|] == r;
  }

  lemma OnlyOne(reports: seq<Report>, r: Report)
    requires !HasKind(reports, r.kind)
    ensures Decides(reports + [r], r.kind, |reports|)
  {
    var more, f := reports + [r], |reports|;
    assert forall j :: 0 <= j < |reports| ==> more[j] == reports[j];
    assert more[f] == r && FirstOf(more, r.kind, f);
    if r.completedAt.Some? { assert LatestReadable(more, r.kind, f); }
  }

  /** What one more record does to the record that decides. */
  lemma DecidesNext(reports: seq<Report>, r: Report, kind: string, i: nat)
    requires Decides(reports, kind, i)
    ensures i < |reports|
    ensures Decides(reports + [r], kind, if r.kind == kind && Later(r, reports[i]) then |reports| else i)
  {
    var f: nat :| FirstOf(reports, kind, f) && if reports[f].completedAt.None? then i == f else LatestReadable(reports, kind, i);
    FirstStays(reports, r, kind, f);
    if reports[f].completedAt.Some? {
      if r.kind == kind && Later(r, reports[i]) { LatestMoves(reports, r, kind, i); } else { LatestStays(reports, r, kind, i); }
    }
  }

  /** For all records the one kept for a kind is the one that decides about it. */
  lemma {:induction false} KeptDecides(reports: seq<Report>, kind: string) returns (i: nat)
    requires HasKind(reports, kind)
    ensures Decides(reports, kind, i) && i < |reports| && kind in Latest(reports) && Latest(reports)[kind] == reports[i]
  {
    var k := |reports| - 1;
    var front, r := reports[..k], reports[k];
    assert reports == front + [r];
    if HasKind(front, kind) {
      i := KeptDecides(front, kind);
      DecidesNext(front, r, kind, i);
      if r.kind == kind && Later(r, front[i]) { i := k; }
    } else {
      NoKindNoEntry(front, kind);
      assert forall j :: 0 <= j < k ==> front[j] == reports[j];
      OnlyOne(front, r);
      i := k;
    }
  }

  lemma FirstUnique(reports: seq<Report>, kind: string, f: nat, g: nat)
    requires FirstOf(reports, kind, f) && FirstOf(reports, kind, g)
    ensures f == g
  {
    assert !(f < g) && !(g < f);
  }

  lemma LatestUnique(reports: seq<Report>, kind: string, i: nat, j: nat)
    requires LatestReadable(reports, kind, i) && LatestReadable(reports, kind, j)
    ensures i == j
  {
    assert reports[j].completedAt.value == reports[i].completedAt.value;
  }

  lemma DecidesUnique(reports: seq<Report>, kind: string, i: nat, j: nat)
    requires Decides(reports, kind, i) && Decides(reports, kind, j)
    ensures i == j
  {
    var f: nat :| FirstOf(reports, kind, f) && if reports[f].completedAt.None? then i == f else LatestReadable(reports, kind, i);
    var g: nat :| FirstOf(reports, kind, g) && if reports[g].completedAt.None? then j == g else LatestReadable(reports, kind, j);
    FirstUnique(reports, kind, f, g);
    if reports[f].completedAt.Some? { LatestUnique(reports, kind, i, j); }
  }

  /** The record kept for a kind passed exactly if the one that decides did. */
  lemma KeptPassesIff(reports: seq<Report>, kind: string)
    ensures kind in Latest(reports) && Latest(reports)[kind].passed <==> Passes(reports, kind)
  {
    forall j: nat | Decides(reports, kind, j) ensures HasKind(reports, kind) { DecidesInRange(reports, kind, j); }
    if HasKind(reports, kind) {
      var i := KeptDecides(reports, kind);
      forall j: nat | Decides(reports, kind, j) ensures i == j { DecidesUnique(reports, kind, i, j); }
    } else {
      NoKindNoEntry(reports, kind);
    }
  }

  predicate HasKind(reports: seq<Report>, kind: string) {
    exists i :: 0 <= i < |reports| && reports[i].kind == kind
  }

  lemma {:induction false} NoKindNoEntry(reports: seq<Report>, kind: string)
    requires !HasKind(reports, kind)
    ensures kind !in Latest(reports)
  {
    if reports != [] {
      var front := reports[..|reports| - 1];
      assert forall j :: 0 <= j < |front| ==> front[j] == reports[j];
      assert reports[|reports| - 1].kind != kind;
      NoKindNoEntry(front, kind);
    }
  }

  /** A first record whose time cannot be read is never replaced, whatever follows. */
  lemma UnreadableTimeSticks(reports: seq<Report>, kind: string, f: nat)
    requires FirstOf(reports, kind, f) && reports[f].completedAt.None?
    ensures kind in Latest(reports) && Latest(reports)[kind] == reports[f]
  {
    var i := KeptDecides(reports, kind);
    assert Decides(reports, kind, f);
    DecidesUnique(reports, kind, i, f);
  }

  /** If the time of the first can be read, the one kept is readable and the latest of
      those that are. */
  lemma ReadableIsLatest(reports: seq<Report>, kind: string, f: nat) returns (i: nat)
    requires FirstOf(reports, kind, f) && reports[f].completedAt.Some?
    ensures LatestReadable(reports, kind, i) && kind in Latest(reports) && Latest(reports)[kind] == reports[i]
  {
    i := KeptDecides(reports, kind);
    var g: nat :| FirstOf(reports, kind, g) && if reports[g].completedAt.None? then i == g else LatestReadable(reports, kind, i);
    FirstUnique(reports, kind, f, g);
  }

  /** Which of the required kinds are not decided by a passed record. */
  method MissingKinds(reports: seq<Report>, required: seq<string>) returns (missing: seq<string>)
    ensures forall kind :: kind in missing <==> kind in required && !Passes(reports, kind)
    ensures missing == [] <==> forall k :: 0 <= k < |required| ==> Passes(reports, required[k])
  {
    var latestByKind: map<string, Report> := map[];
    for n := 0 to |reports|
      invariant latestByKind == Latest(reports[..n])
    {
      assert reports[..n + 1][..n] == reports[..n];
      var r := reports[n];
      if r.kind !in latestByKind || Later(r, latestByKind[r.kind]) {
        latestByKind := latestByKind[r.kind := r];
      }
    }
    assert reports[..|reports|] == reports;
    missing := [];
    for k := 0 to |required|
      invariant forall kind :: kind in missing <==> kind in required[..k] && !Passes(reports, kind)
    {
      KeptPassesIff(reports, required[k]);
      assert required[..k + 1] == required[..k] + [required[k]];
      if required[k] !in latestByKind || !latestByKind[required[k]].passed {
        missing := missing + [required[k]];
      }
    }
    assert required[..|required|] == required;
    if missing != [] { assert missing[0] in missing; }
  }
}
