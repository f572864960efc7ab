/**
 The synthetic provider of the gateway (scripts/langgraph-runtime-gateway.ts, lines
 77-78 and 902-1006): idempotent actions and one-time authorization codes. Each handler
 looks up and updates its map without waiting in between, so a run is a sequence of
 handlers, in any order, on any number of processes.
 */
module Synthetic {
  import opened Text

  /** The maps of one process. */
  datatype Process = Process(actions: map<string, string>, codes: map<string, string>)

  datatype Request =
    | Act(authorized: bool, key: string, reconcile: bool, unknownOutcome: bool)
    | Authorize(localRedirect: bool, state: string, challenge: string, s256: bool, code: string)
    | Redeem(code: string, verifier: string)

  datatype Reply =
    | Refused(status: int)
    | Reconciled(reference: string, replayed: bool)
    | Performed(reference: string, accepted: bool, duplicate: bool)
    | Issued(code: string)
    | Granted

  function Reference(key: string): string {
    "synthetic:" + key
  }

  /** One handler on one process. `hash` is the S256 transformation of a verifier. */
  function Handle(hash: string -> string, p: Process, request: Request): (Reply, Process) {
    match request
    case Act(authorized, rawKey, reconcile, unknownOutcome) =>
      var key := Trim(rawKey);
      if !authorized then (Refused(401), p)
      else if key == "" then (Refused(400), p)
      else
        var existing := key in p.actions;
        var reference := if existing then p.actions[key] else Reference(key);
        var p' := p.(actions := p.actions[key := reference]);
        (if reconcile then Reconciled(reference, !existing) else Performed(reference, unknownOutcome, existing), p')
    case Authorize(localRedirect, state, challenge, s256, code) =>
      if !localRedirect || state == "" || challenge == "" || !s256 then (Refused(400), p)
      else (Issued(code), p.(codes := p.codes[code := challenge]))
    case Redeem(code, verifier) =>
      if code !in p.codes || p.codes[code] == "" || p.codes[code] != hash(verifier) then (Refused(400), p)
      else (Granted, p.(codes := p.codes - {code}))
  }

  /** The process as the program has it, with its two maps updated in place. */
  class Gateway {
    const hash: string -> string
    var actions: map<string, string>
    var codes: map<string, string>

    constructor (hash: string -> string)
      ensures this.hash == hash && State() == Process(map[], map[])
    {
      this.hash := hash;
      actions, codes := map[], map[];
    }

    function State(): Process
      reads this
    {
      Process(actions, codes)
    }

    method OnAction(authorized: bool, rawKey: string, reconcile: bool, unknownOutcome: bool) returns (reply: Reply)
      modifies this
      ensures (reply, State()) == Handle(hash, old(State()), Act(authorized, rawKey, reconcile, unknownOutcome))
    {
      if !authorized { return Refused(401); }
      var key := Trim(rawKey);
      if key == "" { return Refused(400); }
      var existing := key in actions;
      var reference := if existing then actions[key] else Reference(key);
      actions := actions[key := reference];
      if reconcile { return Reconciled(reference, !existing); }
      return Performed(reference, unknownOutcome, existing);
    }

    method OnAuthorize(localRedirect: bool, state: string, challenge: string, s256: bool, code: string) returns (reply: Reply)
      modifies this
      ensures (reply, State()) == Handle(hash, old(State()), Authorize(localRedirect, state, challenge, s256, code))
    {
      if !localRedirect { return Refused(400); }
      if state == "" || challenge == "" || !s256 { return Refused(400); }
      codes := codes[code := challenge];
      return Issued(code);
    }

    method OnRedeem(code: string, verifier: string) returns (reply: Reply)
      modifies this
      ensures (reply, State()) == Handle(hash, old(State()), Redeem(code, verifier))
    {
      var actual := hash(verifier);
      if code !in codes || codes[code] == "" || codes[code] != actual { return Refused(400); }
      codes := codes - {code};
      return Granted;
    }
  }

  // ----- runs over any number of processes

  datatype Step = Step(process: nat, request: Request)

  function Start(): Process {
    Process(map[], map[])
  }

  /** The state of process `p` after the steps. */
  function StateOf(hash: string -> string, steps: seq<Step>, p: nat): Process {
    if steps == [] then Start()
    else
      var before := StateOf(hash, steps[..|steps| - 1], p);
      var step := steps[|steps| - 1];
      if step.process == p then Handle(hash, before, step.request).1 else before
  }

  /** The reply to step `i`. */
  function ReplyAt(hash: string -> string, steps: seq<Step>, i: nat): Reply
    requires i < |steps|
  {
    Handle(hash, StateOf(hash, steps[..i], steps[i].process), steps[i].request).0
  }

  lemma StateStep(hash: string -> string, steps: seq<Step>, i: nat, p: nat)
    requires i < |steps|
    ensures StateOf(hash, steps[..i + 1], p)
         == if steps[i].process == p then Handle(hash, StateOf(hash, steps[..i], p), steps[i].request).1
            else StateOf(hash, steps[..i], p)
  {
    assert steps[..i + 1][..i] == steps[..i];
  }

  // ----- actions

  predicate AllReferences(p: Process) {
    forall k :: k in p.actions ==> p.actions[k] == Reference(k)
  }

  lemma {:induction false} ActionsHoldReferences(hash: string -> string, steps: seq<Step>, p: nat)
    ensures AllReferences(StateOf(hash, steps, p))
  {
    if steps != [] { ActionsHoldReferences(hash, steps[..|steps| - 1], p); }
  }

  /** Over every interleaving on any number of processes, a successful reply for a key
      carries the reference made from the trimmed key. */
  lemma RepliesCarryReference(hash: string -> string, steps: seq<Step>, i: nat)
    requires i < |steps| && steps[i].request.Act?
    ensures var reply := ReplyAt(hash, steps, i);
      reply.Refused? || ((reply.Reconciled? || reply.Performed?) && reply.reference == Reference(Trim(steps[i].request.key)))
  {
    ActionsHoldReferences(hash, steps[..i], steps[i].process);
  }

  /** Step `i` completes an operation for `key` on process `p`. */
  predicate Completes(steps: seq<Step>, i: nat, p: nat, key: string) {
    && i < |steps| && steps[i].process == p
    && steps[i].request.Act? && steps[i].request.authorized && Trim(steps[i].request.key) == key && key != ""
  }

  /** The reply says that the key was not known before. */
  predicate SaysNew(reply: Reply) {
    (reply.Reconciled? && reply.replayed) || (reply.Performed? && !reply.duplicate)
  }

  lemma KnownStep(hash: string -> string, steps: seq<Step>, i: nat, p: nat, key: string)
    requires i < |steps|
    ensures key in StateOf(hash, steps[..i + 1], p).actions
      <==> key in StateOf(hash, steps[..i], p).actions || Completes(steps, i, p, key)
  {
    StateStep(hash, steps, i, p);
  }

  lemma {:induction false} KnownIffCompleted(hash: string -> string, steps: seq<Step>, i: nat, p: nat, key: string)
    requires i <= |steps|
    ensures key in StateOf(hash, steps[..i], p).actions <==> exists j :: 0 <= j < i && Completes(steps, j, p, key)
  {
    if i > 0 {
      KnownIffCompleted(hash, steps, i - 1, p, key);
      KnownStep(hash, steps, i - 1, p, key);
    }
  }

  /** In one process exactly the first completed operation of a key finds no entry. */
  lemma NewIffFirst(hash: string -> string, steps: seq<Step>, i: nat, p: nat, key: string)
    requires Completes(steps, i, p, key)
    ensures SaysNew(ReplyAt(hash, steps, i)) <==> forall j :: 0 <= j < i ==> !Completes(steps, j, p, key)
  {
    KnownIffCompleted(hash, steps, i, p, key);
  }

  // ----- codes

  predicate Issues(hash: string -> string, steps: seq<Step>, i: nat, p: nat, code: string, challenge: string) {
    && i < |steps| && steps[i].process == p
    && ReplyAt(hash, steps, i) == Issued(code)
    && steps[i].request.challenge == challenge
  }

  predicate Redeems(hash: string -> string, steps: seq<Step>, i: nat, code: string) {
    i < |steps| && steps[i].request.Redeem? && steps[i].request.code == code && ReplyAt(hash, steps, i) == Granted
  }

  /** Codes are random identifiers: no two requests are given the same one. */
  predicate FreshCodes(steps: seq<Step>) {
    forall i, j :: 0 <= i < j < |steps| && steps[i].request.Authorize? && steps[j].request.Authorize?
      ==> steps[i].request.code != steps[j].request.code
  }

  /** A stored code was issued by this process, with the stored challenge. */
  lemma {:induction false} StoredWasIssued(hash: string -> string, steps: seq<Step>, i: nat, p: nat, code: string) returns (k: nat)
    requires i <= |steps| && code in StateOf(hash, steps[..i], p).codes
    ensures k < i && Issues(hash, steps, k, p, code, StateOf(hash, steps[..i], p).codes[code])
  {
    StateStep(hash, steps, i - 1, p);
    if steps[i - 1].process == p && ReplyAt(hash, steps, i - 1) == Issued(code) {
      k := i - 1;
    } else {
      k := StoredWasIssued(hash, steps, i - 1, p, code);
    }
  }

  /** A code is granted only to a verifier that hashes to the challenge it was issued for,
      by the process that issued it. */
  lemma GrantedToItsVerifier(hash: string -> string, steps: seq<Step>, i: nat, code: string) returns (k: nat)
    requires Redeems(hash, steps, i, code)
    ensures k < i && Issues(hash, steps, k, steps[i].process, code, hash(steps[i].request.verifier))
  {
    k := StoredWasIssued(hash, steps, i, steps[i].process, code);
  }

  /** After a grant the code is gone from its process, unless it is issued anew. */
  lemma {:induction false} GoneAfterGrant(hash: string -> string, steps: seq<Step>, i: nat, j: nat, p: nat, code: string)
    requires i < j <= |steps| && steps[i].process == p && Redeems(hash, steps, i, code)
    requires forall k :: i < k < j && steps[k].request.Authorize? ==> steps[k].request.code != code
    ensures code !in StateOf(hash, steps[..j], p).codes
  {
    StateStep(hash, steps, j - 1, p);
    if j - 1 > i { GoneAfterGrant(hash, steps, i, j - 1, p, code); }
  }

  /** Each issued code is redeemed at most once, over every interleaving on any number of
      processes. */
  lemma RedeemedAtMostOnce(hash: string -> string, steps: seq<Step>, i: nat, j: nat, code: string)
    requires FreshCodes(steps) && i < j && Redeems(hash, steps, i, code)
    ensures !Redeems(hash, steps, j, code)
  {
    if j < |steps| && Redeems(hash, steps, j, code) {
      var a := GrantedToItsVerifier(hash, steps, i, code);
      var b := GrantedToItsVerifier(hash, steps, j, code);
      assert a == b;
      GoneAfterGrant(hash, steps, i, j, steps[i].process, code);
    }
  }
}
