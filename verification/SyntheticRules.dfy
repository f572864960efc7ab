/**
 What the synthetic provider answers in every run, said of the requests before
 (scripts/langgraph-runtime-gateway.ts, lines 902-1006).
 */
module SyntheticRules {
  import opened Text
  import opened Synthetic

  /** The process was asked before for this operation, by a request with a credential. */
  predicate AskedBefore(steps: seq<Step>, i: nat, p: nat, key: string) {
    exists j :: 0 <= j < i <= |steps| && steps[j].process == p && Asks(steps[j].request, key)
  }

  predicate Asks(r: Request, key: string) {
    r.Act? && r.authorized && Trim(r.key) == key && key != ""
  }

  lemma KnownIff(hash: string -> string, steps: seq<Step>, i: nat, p: nat, key: string)
    requires i <= |steps|
    ensures key in StateOf(hash, steps[..i], p).actions <==> AskedBefore(steps, i, p, key)
  {
    KnownIffCompleted(hash, steps, i, p, key);
    if j: nat :| j < i && Completes(steps, j, p, key) { assert AskedBefore(steps, i, p, key); }
    if j: nat :| j < i && steps[j].process == p && Asks(steps[j].request, key) { assert Completes(steps, j, p, key); }
  }

  /** The reply to an operation: without a credential 401, without a key 400; else the key's reference,
      and whether the process was asked for it before. */
  lemma ActReply(hash: string -> string, steps: seq<Step>, i: nat)
    requires i < |steps| && steps[i].request.Act?
    ensures var r := steps[i].request;
      var key := Trim(r.key);
      var known := AskedBefore(steps, i, steps[i].process, key);
      ReplyAt(hash, steps, i) ==
        if !r.authorized then Refused(401)
        else if key == "" then Refused(400)
        else if r.reconcile then Reconciled("synthetic:" + key, !known)
        else Performed("synthetic:" + key, r.unknownOutcome, known)
  {
    KnownIff(hash, steps, i, steps[i].process, Trim(steps[i].request.key));
    ActionsHoldReferences(hash, steps[..i], steps[i].process);
  }

  /** A request for a code is well formed: it redirects to this machine, and has a state and an S256 challenge. */
  predicate WellAsked(r: Request) {
    r.Authorize? && r.localRedirect && r.s256 && r.state != "" && r.challenge != ""
  }

  lemma AuthorizeReply(hash: string -> string, steps: seq<Step>, i: nat)
    requires i < |steps| && steps[i].request.Authorize?
    ensures ReplyAt(hash, steps, i) == if WellAsked(steps[i].request) then Issued(steps[i].request.code) else Refused(400)
  {
  }

  /** Step `k` gives the process the code, for this challenge. */
  predicate Gives(steps: seq<Step>, k: nat, p: nat, code: string, challenge: string) {
    && k < |steps| && steps[k].process == p && WellAsked(steps[k].request)
    && steps[k].request.code == code && steps[k].request.challenge == challenge
  }

  /** Step `k` takes the code from the process, or gives it another challenge. */
  predicate Ends(hash: string -> string, steps: seq<Step>, k: nat, p: nat, code: string) {
    && k < |steps| && steps[k].process == p
    && (|| (WellAsked(steps[k].request) && steps[k].request.code == code)
        || (steps[k].request.Redeem? && steps[k].request.code == code && ReplyAt(hash, steps, k) == Granted))
  }

  /** Before step `i` the process holds the code with this challenge, since step `k`. */
  predicate HeldSince(hash: string -> string, steps: seq<Step>, k: nat, i: nat, p: nat, code: string, challenge: string) {
    k < i <= |steps| && Gives(steps, k, p, code, challenge) && forall j :: k < j < i ==> !Ends(hash, steps, j, p, code)
  }

  lemma CodeStep(hash: string -> string, steps: seq<Step>, i: nat, p: nat, code: string, challenge: string)
    requires i < |steps|
    ensures HoldsCode(StateOf(hash, steps[..i + 1], p), code, challenge) <==>
      || Gives(steps, i, p, code, challenge)
      || (HoldsCode(StateOf(hash, steps[..i], p), code, challenge) && !Ends(hash, steps, i, p, code))
  {
    StateStep(hash, steps, i, p);
  }

  predicate HoldsCode(p: Process, code: string, challenge: string) {
    code in p.codes && p.codes[code] == challenge
  }

  lemma {:induction false} HeldIff(hash: string -> string, steps: seq<Step>, i: nat, p: nat, code: string, challenge: string)
    requires i <= |steps|
    ensures HoldsCode(StateOf(hash, steps[..i], p), code, challenge)
       <==> exists k: nat :: HeldSince(hash, steps, k, i, p, code, challenge)
  {
    if i > 0 {
      var n := i - 1;
      HeldIff(hash, steps, n, p, code, challenge);
      CodeStep(hash, steps, n, p, code, challenge);
      if k: nat :| HeldSince(hash, steps, k, n, p, code, challenge) && !Ends(hash, steps, n, p, code) {
        assert HeldSince(hash, steps, k, i, p, code, challenge);
      }
      if Gives(steps, n, p, code, challenge) { assert HeldSince(hash, steps, n, i, p, code, challenge); }
      if k: nat :| HeldSince(hash, steps, k, i, p, code, challenge) && k < n {
        assert HeldSince(hash, steps, k, n, p, code, challenge);
      }
    }
  }

  /** A code is granted exactly if the process holds it with the challenge its verifier hashes to. */
  lemma RedeemReply(hash: string -> string, steps: seq<Step>, i: nat)
    requires i < |steps| && steps[i].request.Redeem?
    ensures var r := steps[i].request;
      ReplyAt(hash, steps, i) ==
        if exists k: nat :: HeldSince(hash, steps, k, i, steps[i].process, r.code, hash(r.verifier)) then Granted
        else Refused(400)
  {
    var r := steps[i].request;
    HeldIff(hash, steps, i, steps[i].process, r.code, hash(r.verifier));
  }
}
