/**
 When a command of a run is executed, what it leaves behind, and when the collector accepts the
 run, said of the commands and the times of the run (scripts/environment-command.ts, lines 41-225;
 scripts/collect-release-evidence.ts, lines 90-118).
 */
module PromotionRules {
  import opened Text
  import opened Promotion

  /** Event `i` is a command that was executed. */
  predicate Ran(events: seq<Event>, i: nat) {
    i < |events| && events[i].Run? && Executes(After(events[..i]), events[i].command)
  }

  /** Event `i` is one that deployed this stage. */
  predicate Deployed(events: seq<Event>, i: nat, target: Target, commit: string, stage: Stage) {
    && Ran(events, i) && events[i].command.phase == DeployCloudflare
    && events[i].command.target == target && events[i].command.commit == commit && events[i].command.stage == stage
  }

  predicate DeployedBefore(events: seq<Event>, n: nat, target: Target, commit: string, stage: Stage) {
    exists i :: 0 <= i < n && Deployed(events, i, target, commit, stage)
  }

  predicate ConfiguredBefore(events: seq<Event>, n: nat, target: Target, commit: string) {
    exists i :: 0 <= i < n <= |events| && events[i].ConfigureSecrets? && events[i].target == target && events[i].commit == commit
  }

  /** The stage before was deployed. */
  predicate Stepped(events: seq<Event>, n: nat, target: Target, commit: string, stage: Stage) {
    match stage
    case Disabled => true
    case RetainedData => DeployedBefore(events, n, target, commit, Disabled)
    case Connections => DeployedBefore(events, n, target, commit, RetainedData)
    case Mutations => DeployedBefore(events, n, target, commit, Connections)
  }

  lemma ConfiguredIff(events: seq<Event>, n: nat, target: Target, commit: string)
    requires n <= |events|
    ensures ConfiguredBefore(events, n, target, commit) <==> EverConfigured(events[..n], target, commit)
  {
    if i :| 0 <= i < n && events[i].ConfigureSecrets? && events[i].target == target && events[i].commit == commit {
      assert Configures(events[..n][i], target, commit);
    }
  }

  lemma DeployedFront(events: seq<Event>, n: nat, i: nat, target: Target, commit: string, stage: Stage)
    requires i < n <= |events|
    ensures Deploys(events[..n], i, target, commit, stage) <==> Deployed(events, i, target, commit, stage)
  {
    assert events[..n][..i] == events[..i];
  }

  lemma {:induction false} LastExists(events: seq<Event>, target: Target, commit: string, stage: Stage, n: nat)
    requires n < |events| && Deploys(events, n, target, commit, stage)
    ensures EverDeployed(events, target, commit, stage)
    decreases |events| - n
  {
    if j :| j > n && Deploys(events, j, target, commit, stage) {
      LastExists(events, target, commit, stage, j);
    } else {
      assert LastDeploy(events, n, target, commit, stage);
    }
  }

  lemma PromotedBefore(events: seq<Event>, n: nat, target: Target, commit: string, stage: Stage)
    requires n <= |events|
    ensures Promoted(After(events[..n]), target, commit, stage) <==> DeployedBefore(events, n, target, commit, stage)
  {
    PromotedIffDeployed(events[..n], target, commit, stage);
    if i :| LastDeploy(events[..n], i, target, commit, stage) { DeployedFront(events, n, i, target, commit, stage); }
    if i: nat :| i < n && Deployed(events, i, target, commit, stage) {
      DeployedFront(events, n, i, target, commit, stage);
      LastExists(events[..n], target, commit, stage, i);
    }
  }

  lemma LadderIff(events: seq<Event>, i: nat, c: Command)
    requires i <= |events| && c.phase == DeployCloudflare
    ensures LadderOk(After(events[..i]), c) <==> Stepped(events, i, c.target, c.commit, c.stage)
  {
    match c.stage
    case Disabled =>
    case RetainedData => PromotedBefore(events, i, c.target, c.commit, Disabled);
    case Connections => PromotedBefore(events, i, c.target, c.commit, RetainedData);
    case Mutations => PromotedBefore(events, i, c.target, c.commit, Connections);
  }

  lemma SecretsIff(events: seq<Event>, i: nat, c: Command)
    requires i <= |events| && (c.phase == DeployCloudflare || c.phase == DeployFly || c.phase == DeployVercel)
    ensures SecretsOk(After(events[..i]), c) <==> ConfiguredBefore(events, i, c.target, c.commit)
  {
    SecretGateIff(events[..i], c);
    ConfiguredIff(events, i, c.target, c.commit);
  }

  /** In every run a command is executed exactly if its arguments allow it; a migration has a backup
      of its target and commit, with a checksum; a deployment comes after its secrets were
      configured; and that of a stage after one of the stage before, for the same target and commit. */
  lemma RanIff(events: seq<Event>, i: nat)
    requires i < |events| && events[i].Run?
    ensures Ran(events, i) <==>
      var c := events[i].command;
      && c.environmentValid && c.execute && c.confirmed && c.cleanTree && c.succeeds
      && (match c.phase
          case Migrate =>
            && c.stage == Disabled && c.backup.Some? && c.backup.value.hasChecksum
            && c.backup.value.target == c.target && c.backup.value.commit == c.commit
          case Bootstrap => c.stage == Disabled
          case DeployFly => c.stage == Disabled && ConfiguredBefore(events, i, c.target, c.commit)
          case DeployVercel => c.stage == Disabled && ConfiguredBefore(events, i, c.target, c.commit)
          case DeployCloudflare =>
            ConfiguredBefore(events, i, c.target, c.commit) && Stepped(events, i, c.target, c.commit, c.stage))
  {
    var c := events[i].command;
    if c.phase == DeployCloudflare { LadderIff(events, i, c); }
    if c.phase == DeployCloudflare || c.phase == DeployFly || c.phase == DeployVercel { SecretsIff(events, i, c); }
  }

  // ----- what is left behind

  /** Event `i` writes this file. */
  predicate Writes(events: seq<Event>, i: nat, f: File) {
    && i < |events|
    && match events[i]
       case ConfigureSecrets(target, commit, _) => f == SecretFile(target, commit)
       case Run(c) =>
         && Ran(events, i)
         && f == match c.phase
                 case DeployCloudflare => PromotionFile(c.target, c.commit, c.stage)
                 case _ => DeploymentFile(c.target, c.commit, c.phase)
  }

  function Written(e: Event): Record {
    match e
    case ConfigureSecrets(target, commit, now) => Record(target, commit, Disabled, "configured", now)
    case Run(c) =>
      match c.phase
      case Bootstrap => Record(c.target, c.commit, c.stage, "bootstrapped", c.now)
      case _ => Record(c.target, c.commit, c.stage, "deployed", c.now)
  }

  ghost predicate WritesLast(events: seq<Event>, i: nat, f: File) {
    Writes(events, i, f) && forall j: nat :: j > i ==> !Writes(events, j, f)
  }

  lemma WritesFront(events: seq<Event>, j: nat, f: File)
    requires events != [] && j < |events| - 1
    ensures Writes(events[..|events| - 1], j, f) <==> Writes(events, j, f)
  {
    assert events[..|events| - 1][..j] == events[..j];
  }

  /** What a step does to a file. */
  lemma StepFile(store: Store, e: Event, f: File)
    ensures e.ConfigureSecrets? ==>
      Step(store, e) == store[SecretFile(e.target, e.commit) := Written(e)]
    ensures e.Run? && Executes(store, e.command) && e.command.phase == DeployCloudflare ==>
      Step(store, e) == store[PromotionFile(e.command.target, e.command.commit, e.command.stage) := Written(e)]
    ensures e.Run? && Executes(store, e.command) && e.command.phase != DeployCloudflare ==>
      Step(store, e) == store[DeploymentFile(e.command.target, e.command.commit, e.command.phase) := Written(e)]
    ensures e.Run? && !Executes(store, e.command) ==> Step(store, e) == store
  {
  }

  lemma StepWrites(events: seq<Event>, f: File, k: nat, before: Store, after: Store)
    requires |events| == k + 1 && before == After(events[..k]) && after == After(events)
    ensures Writes(events, k, f) ==> f in after && after[f] == Written(events[k])
    ensures !Writes(events, k, f) ==> (f in after <==> f in before) && (f in before ==> after[f] == before[f])
  {
    StepFile(before, events[k], f);
    assert after == Step(before, events[k]);
    if events[k].Run? { assert Ran(events, k) <==> Executes(before, events[k].command); }
  }

  lemma WritesLastFront(events: seq<Event>, front: seq<Event>, k: nat, i: nat, f: File)
    requires |events| == k + 1 && front == events[..k] && !Writes(events, k, f) && i < k
    ensures WritesLast(events, i, f) <==> WritesLast(front, i, f)
  {
    forall j: nat ensures Writes(front, j, f) <==> Writes(events, j, f) {
      if j < k { WritesFront(events, j, f); }
    }
  }

  /** After every run a file holds exactly what the last event that writes it wrote, and is there
      exactly if there is one. */
  lemma {:induction false} FileIs(events: seq<Event>, f: File)
    ensures f in After(events) ==> exists i: nat :: WritesLast(events, i, f) && After(events)[f] == Written(events[i])
    ensures f !in After(events) ==> forall i: nat :: !WritesLast(events, i, f)
  {
    if events != [] {
      var k := |events| - 1;
      FileIs(events[..k], f);
      StepWrites(events, f, k, After(events[..k]), After(events));
      if Writes(events, k, f) {
        assert WritesLast(events, k, f);
      } else {
        forall i: nat | i < k ensures WritesLast(events, i, f) <==> WritesLast(events[..k], i, f) {
          WritesLastFront(events, events[..k], k, i, f);
        }
      }
    }
  }

  // ----- the collector

  /** Event `i` is the last that deployed the stage, at this time. */
  ghost predicate LastAt(events: seq<Event>, i: nat, target: Target, commit: string, stage: Stage) {
    Deployed(events, i, target, commit, stage) && forall j: nat :: j > i ==> !Deployed(events, j, target, commit, stage)
  }

  ghost predicate Ends(events: seq<Event>, target: Target, commit: string, stage: Stage, time: int) {
    exists i: nat :: LastAt(events, i, target, commit, stage) && events[i].command.now == time
  }

  lemma LastAtIff(events: seq<Event>, i: nat, target: Target, commit: string, stage: Stage)
    ensures LastAt(events, i, target, commit, stage) <==> LastDeploy(events, i, target, commit, stage)
  {
    assert events[..|events|] == events;
    forall j: nat ensures Deploys(events, j, target, commit, stage) <==> Deployed(events, j, target, commit, stage) {
    }
  }

  lemma EndsIff(events: seq<Event>, target: Target, commit: string, stage: Stage, time: int)
    ensures Ends(events, target, commit, stage, time) <==>
      Promoted(After(events), target, commit, stage) && TimeOf(After(events), target, commit, stage) == time
  {
    PromotedIffDeployed(events, target, commit, stage);
    if i: nat :| LastAt(events, i, target, commit, stage) && events[i].command.now == time {
      LastAtIff(events, i, target, commit, stage);
      TimeIsLast(events, i, target, commit, stage);
    }
    if i: int :| LastDeploy(events, i, target, commit, stage) {
      LastAtIff(events, i, target, commit, stage);
      TimeIsLast(events, i, target, commit, stage);
    }
  }

  lemma InOrderOfThree(store: Store, target: Target, commit: string)
    requires target == Production
    ensures InOrder(store, target, commit, Required(target)) <==>
      && Promoted(store, target, commit, Disabled) && Promoted(store, target, commit, RetainedData)
      && Promoted(store, target, commit, Connections)
      && 0 <= TimeOf(store, target, commit, Disabled) <= TimeOf(store, target, commit, RetainedData)
           <= TimeOf(store, target, commit, Connections)
  {
    var stages := Required(target);
    assert |stages| == 3 && stages[0] == Disabled && stages[1] == RetainedData && stages[2] == Connections;
  }

  lemma InOrderOfFour(store: Store, target: Target, commit: string)
    requires target == Acceptance
    ensures InOrder(store, target, commit, Required(target)) <==>
      && Promoted(store, target, commit, Disabled) && Promoted(store, target, commit, RetainedData)
      && Promoted(store, target, commit, Connections) && Promoted(store, target, commit, Mutations)
      && 0 <= TimeOf(store, target, commit, Disabled) <= TimeOf(store, target, commit, RetainedData)
           <= TimeOf(store, target, commit, Connections) <= TimeOf(store, target, commit, Mutations)
  {
    var stages := Required(target);
    assert |stages| == 4 && stages[0] == Disabled && stages[1] == RetainedData && stages[2] == Connections && stages[3] == Mutations;
  }

  /** The times of the last deployments of the stages every target needs. */
  ghost predicate ThreeEnd(events: seq<Event>, target: Target, commit: string, a: int, b: int, c: int) {
    && Ends(events, target, commit, Disabled, a) && Ends(events, target, commit, RetainedData, b)
    && Ends(events, target, commit, Connections, c)
  }

  lemma ThreeIff(events: seq<Event>, target: Target, commit: string, a: int, b: int, c: int)
    ensures ThreeEnd(events, target, commit, a, b, c) <==>
      var store := After(events);
      && Promoted(store, target, commit, Disabled) && a == TimeOf(store, target, commit, Disabled)
      && Promoted(store, target, commit, RetainedData) && b == TimeOf(store, target, commit, RetainedData)
      && Promoted(store, target, commit, Connections) && c == TimeOf(store, target, commit, Connections)
  {
    EndsIff(events, target, commit, Disabled, a);
    EndsIff(events, target, commit, RetainedData, b);
    EndsIff(events, target, commit, Connections, c);
  }

  /** The collector accepts a run for production exactly if its last deployments without features,
      with retained data and with connections came in this order. */
  lemma ProductionCollectedIff(events: seq<Event>, commit: string)
    ensures InOrder(After(events), Production, commit, Required(Production)) <==>
      exists a, b, c :: 0 <= a <= b <= c && ThreeEnd(events, Production, commit, a, b, c)
  {
    var store := After(events);
    var x, y, z := TimeOf(store, Production, commit, Disabled), TimeOf(store, Production, commit, RetainedData), TimeOf(store, Production, commit, Connections);
    InOrderOfThree(store, Production, commit);
    ThreeIff(events, Production, commit, x, y, z);
    if a, b, c :| 0 <= a <= b <= c && ThreeEnd(events, Production, commit, a, b, c) {
      ThreeIff(events, Production, commit, a, b, c);
    }
  }

  /** For acceptance, exactly if besides the last deployment with mutations came after these. */
  lemma AcceptanceCollectedIff(events: seq<Event>, commit: string)
    ensures InOrder(After(events), Acceptance, commit, Required(Acceptance)) <==>
      exists a, b, c, d :: 0 <= a <= b <= c <= d && ThreeEnd(events, Acceptance, commit, a, b, c)
        && Ends(events, Acceptance, commit, Mutations, d)
  {
    var store := After(events);
    var x, y, z := TimeOf(store, Acceptance, commit, Disabled), TimeOf(store, Acceptance, commit, RetainedData), TimeOf(store, Acceptance, commit, Connections);
    var last := TimeOf(store, Acceptance, commit, Mutations);
    InOrderOfFour(store, Acceptance, commit);
    ThreeIff(events, Acceptance, commit, x, y, z);
    EndsIff(events, Acceptance, commit, Mutations, last);
    if a, b, c, d :| 0 <= a <= b <= c <= d && ThreeEnd(events, Acceptance, commit, a, b, c) && Ends(events, Acceptance, commit, Mutations, d) {
      ThreeIff(events, Acceptance, commit, a, b, c);
      EndsIff(events, Acceptance, commit, Mutations, d);
    }
  }
}
