/**
 What `verifyRunnerSignature` answers, said of the fields of the calls and of the calls before
 them (scripts/langgraph-runtime-gateway.ts, lines 160-224).
 */
module NonceRules {
  import opened Text
  import opened Nonces

  // ----- one call after the other

  /** The verdict on call `i` of a run. */
  function VerdictOf(window: real, calls: seq<Call>, i: nat): Verdict
    requires i < |calls|
  {
    Judge(window, Run(window, calls[..i]).0, calls[i].request, calls[i].freshAt, calls[i].now).0
  }

  /** Call `k` was accepted with the nonce of call `i`, and less than `window` before. */
  predicate UsedBy(window: real, calls: seq<Call>, k: nat, i: nat)
    requires k < i < |calls|
  {
    && VerdictOf(window, calls, k) == Accepted
    && calls[k].request.nonce == calls[i].request.nonce && calls[i].now < calls[k].now + window
  }

  lemma VerdictOfFront(window: real, calls: seq<Call>, m: nat, k: nat)
    requires k < m <= |calls|
    ensures VerdictOf(window, calls[..m], k) == VerdictOf(window, calls, k)
  {
    assert calls[..m][..k] == calls[..k];
  }

  lemma RunOfMore(window: real, calls: seq<Call>, k: nat)
    requires |calls| == k + 1
    ensures Run(window, calls).1 ==
      Run(window, calls[..k]).1 + if VerdictOf(window, calls, k) == Accepted then [Note(calls[k], k)] else []
  {
  }

  /** The history of a run consists of its accepted calls. */
  lemma {:induction false} HistoryIff(window: real, calls: seq<Call>, q: Acceptance)
    ensures q in Run(window, calls).1
       <==> exists k :: 0 <= k < |calls| && VerdictOf(window, calls, k) == Accepted && q == Note(calls[k], k)
  {
    if calls != [] {
      var k := |calls| - 1;
      RunOfMore(window, calls, k);
      HistoryIff(window, calls[..k], q);
      forall i | 0 <= i < k ensures VerdictOf(window, calls[..k], i) == VerdictOf(window, calls, i) {
        VerdictOfFront(window, calls, k, i);
      }
    }
  }

  lemma InTimeFront(calls: seq<Call>, i: nat)
    requires InTime(calls) && i < |calls|
    ensures InTime(calls[..i] + [calls[i]])
  {
    assert calls[..i] + [calls[i]] == calls[..i + 1];
  }

  lemma {:induction false} RunInStep(window: real, calls: seq<Call>, clock: real)
    requires InTime(calls) && window >= 0.0 && (calls != [] ==> Clock(calls) <= clock)
    ensures Refines(window, Run(window, calls).0, Run(window, calls).1, clock)
  {
    if calls != [] {
      RunRefines(window, calls);
      AgeTracks(window, Run(window, calls).0, Run(window, calls).1, Clock(calls), clock);
    }
  }

  /** After purging, the nonce of a call is in the table exactly if a call before it used it. */
  lemma UsedIff(window: real, calls: seq<Call>, i: nat)
    requires InTime(calls) && window >= 0.0 && i < |calls|
    ensures calls[i].request.nonce in Purged(Run(window, calls[..i]).0, calls[i].now)
       <==> exists k :: 0 <= k < i && UsedBy(window, calls, k, i)
  {
    var front, c := calls[..i], calls[i];
    var accepted := Run(window, front).1;
    InTimeFront(calls, i);
    Earlier(front, c);
    RunInStep(window, front, c.freshAt);
    HasIffRecent(window, Run(window, front).0, accepted, c.freshAt, c.now, c.request.nonce);
    forall q | q in accepted && q.nonce == c.request.nonce && c.now < q.at + window
      ensures exists k :: 0 <= k < i && UsedBy(window, calls, k, i)
    {
      HistoryIff(window, front, q);
      var k :| 0 <= k < i && VerdictOf(window, front, k) == Accepted && q == Note(front[k], k);
      VerdictOfFront(window, calls, i, k);
      assert UsedBy(window, calls, k, i);
    }
    forall k: nat | k < i && UsedBy(window, calls, k, i) ensures Note(calls[k], k) in accepted {
      VerdictOfFront(window, calls, i, k);
      HistoryIff(window, front, Note(calls[k], k));
    }
  }

  /** Every verdict of every run, in the fields of the call: in the order of the checks, the first
      that fails is the answer; and a nonce counts as used for `window` after its acceptance. */
  lemma VerdictIff(window: real, calls: seq<Call>, i: nat)
    requires InTime(calls) && window >= 0.0 && i < |calls|
    ensures var r, at := calls[i].request, calls[i].freshAt;
      var passed := r.configured && r.complete;
      var timely := passed && r.timestamp.Some? && r.timestamp.value - at <= window && at - r.timestamp.value <= window;
      var used := exists k :: 0 <= k < i && UsedBy(window, calls, k, i);
      && (VerdictOf(window, calls, i) == NotConfigured <==> !r.configured)
      && (VerdictOf(window, calls, i) == Required <==> r.configured && !r.complete)
      && (VerdictOf(window, calls, i) == Stale <==> passed && !timely)
      && (VerdictOf(window, calls, i) == HashMismatch <==> timely && !r.hashOk)
      && (VerdictOf(window, calls, i) == Replay <==> timely && r.hashOk && used)
      && (VerdictOf(window, calls, i) == Invalid <==> timely && r.hashOk && !used && !r.signatureOk)
      && (VerdictOf(window, calls, i) == Accepted <==> timely && r.hashOk && !used && r.signatureOk)
  {
    UsedIff(window, calls, i);
  }

  /** An acceptance in fields: the request is signed, whole and fresh, and no call accepted with
      its nonce lies less than `window` back. */
  lemma AcceptedExactly(window: real, calls: seq<Call>, i: nat)
    requires InTime(calls) && window >= 0.0 && i < |calls|
    ensures VerdictOf(window, calls, i) == Accepted <==>
      var r := calls[i].request;
      && r.configured && r.complete && r.hashOk && r.signatureOk
      && r.timestamp.Some? && -window <= calls[i].freshAt - r.timestamp.value <= window
      && forall k :: 0 <= k < i && VerdictOf(window, calls, k) == Accepted && calls[k].request.nonce == r.nonce
           ==> calls[k].now + window <= calls[i].now
  {
    VerdictIff(window, calls, i);
    forall k: nat | k < i && VerdictOf(window, calls, k) == Accepted && calls[k].request.nonce == calls[i].request.nonce
      ensures UsedBy(window, calls, k, i) <==> calls[i].now < calls[k].now + window
    {
    }
  }

  // ----- calls that interleave

  /** No call is checked twice. */
  predicate OneCheckEach(steps: seq<Step>) {
    forall i, j :: 0 <= i < j < |steps| && steps[i].Check? && steps[j].Check? ==> steps[i].id != steps[j].id
  }

  /** The call checked at step `i` is fresh, and the acceptance of its nonce inserted last, if there
      is any, was checked at least `window` before. */
  predicate Passed(window: real, steps: seq<Step>, i: nat)
    requires i < |steps|
  {
    var s := steps[i];
    && s.Check? && s.timestamp.Some? && -window <= s.freshAt - s.timestamp.value <= window
    && var last := Last(Interleave(window, steps[..i]).accepted, s.nonce);
       last.Some? ==> last.value.at + window <= s.now
  }

  predicate Finishes(step: Step, id: nat) {
    step.Finish? && step.id == id
  }

  /** A call has passed its check at step `i` and is not finished. */
  predicate Open(window: real, steps: seq<Step>, id: nat, i: nat) {
    && i < |steps| && steps[i].Check? && steps[i].id == id && Passed(window, steps, i)
    && forall j :: i < j < |steps| ==> !Finishes(steps[j], id)
  }

  lemma OpenFront(window: real, front: seq<Step>, step: Step, id: nat, i: nat)
    requires i < |front|
    ensures Open(window, front + [step], id, i) <==> Open(window, front, id, i) && !Finishes(step, id)
  {
    var all := front + [step];
    assert all[..i] == front[..i] && all[i] == front[i] && all[|front|] == step;
    assert forall j :: 0 <= j < |front| ==> all[j] == front[j];
  }

  lemma OpenLast(window: real, front: seq<Step>, step: Step, id: nat)
    requires Ordered(front + [step])
    ensures Open(window, front + [step], id, |front|) <==>
      && step.Check? && step.id == id && Fresh(window, step.timestamp, step.freshAt)
      && step.nonce !in Purged(Interleave(window, front).table, step.now)
  {
    var all := front + [step];
    assert all[..|front|] == front && all[|front|] == step;
    OrderedFront(front, step);
    if step.Check? {
      assert forall i :: 0 <= i < |front| && front[i].Check? ==> all[i].now <= all[|front|].now;
      ClockOf(window, front, step.now);
      CheckPassesIff(window, front, step.nonce, step.now);
    }
  }

  lemma OrderedFront(front: seq<Step>, step: Step)
    requires Ordered(front + [step])
    ensures Ordered(front)
  {
    var all := front + [step];
    assert forall i :: 0 <= i < |front| ==> all[i] == front[i];
  }

  lemma OneCheckFront(front: seq<Step>, step: Step)
    requires OneCheckEach(front + [step])
    ensures OneCheckEach(front)
    ensures step.Check? ==> forall i :: 0 <= i < |front| && front[i].Check? ==> front[i].id != step.id
  {
    var all := front + [step];
    assert all[|front|] == step && forall i :: 0 <= i < |front| ==> all[i] == front[i];
  }

  ghost predicate Waits(g: Gateway, id: nat, w: Waiting) {
    id in g.waiting && g.waiting[id] == w
  }

  /** What is kept of a call that is open since step `i`. */
  function Since(steps: seq<Step>, i: nat): Waiting
    requires i < |steps| && steps[i].Check?
  {
    Waiting(steps[i].nonce, steps[i].timestamp, steps[i].now, i)
  }

  /** In every interleaving a call waits exactly from the check it passes until it is finished. */
  lemma {:induction false} WaitsIff(window: real, steps: seq<Step>, id: nat, w: Waiting)
    requires Ordered(steps) && OneCheckEach(steps)
    ensures Waits(Interleave(window, steps), id, w)
       <==> Open(window, steps, id, w.start) && w == Since(steps, w.start)
  {
    if steps != [] {
      var k := |steps| - 1;
      var front, step := steps[..k], steps[k];
      assert steps == front + [step];
      OrderedFront(front, step);
      OneCheckFront(front, step);
      WaitsIff(window, front, id, w);
      OpenLast(window, front, step, id);
      if w.start < k { OpenFront(window, front, step, id, w.start); }
      if step.Check? && step.id == id { FreeId(window, front, id); }
      StepWaits(window, Interleave(window, front), k, step, id, w);
    }
  }

  /** Who waits after a step. */
  lemma StepWaits(window: real, g: Gateway, k: nat, step: Step, id: nat, w: Waiting)
    ensures Waits(Advance(window, g, k, step), id, w) <==>
      || (Waits(g, id, w) && !Finishes(step, id))
      || (&& step.Check? && step.id == id && id !in g.waiting && Fresh(window, step.timestamp, step.freshAt)
          && step.nonce !in Purged(g.table, step.now) && w == Waiting(step.nonce, step.timestamp, step.now, k))
  {
  }

  lemma {:induction false} FreeId(window: real, steps: seq<Step>, id: nat)
    requires forall i :: 0 <= i < |steps| && steps[i].Check? ==> steps[i].id != id
    ensures id !in Interleave(window, steps).waiting
  {
    if steps != [] { FreeId(window, steps[..|steps| - 1], id); }
  }

  lemma StepAccepts(window: real, g: Gateway, k: nat, step: Step, q: Acceptance)
    ensures q in Advance(window, g, k, step).accepted <==>
      || q in g.accepted
      || (&& step.Finish? && step.signatureOk && q.end == k
          && Waits(g, step.id, Waiting(q.nonce, q.timestamp, q.at, q.start)))
  {
    var g' := Advance(window, g, k, step);
    if step.Finish? && step.id in g.waiting && step.signatureOk {
      var w := g.waiting[step.id];
      assert g'.accepted == g.accepted + [Acceptance(w.nonce, w.timestamp, w.at, w.start, k)];
    } else {
      assert g'.accepted == g.accepted;
    }
  }

  /** The call that an acceptance stands for: it passed its check at step `q.start`, and was finished
      at step `q.end`, its signature being right. */
  predicate Earned(window: real, steps: seq<Step>, q: Acceptance) {
    && q.start < q.end < |steps| && steps[q.start].Check? && steps[q.end] == Finish(steps[q.start].id, true)
    && Passed(window, steps, q.start)
    && (forall j :: q.start < j < q.end ==> !Finishes(steps[j], steps[q.start].id))
    && q.nonce == steps[q.start].nonce && q.timestamp == steps[q.start].timestamp && q.at == steps[q.start].now
  }

  lemma EarnedFront(window: real, front: seq<Step>, step: Step, q: Acceptance)
    requires q.end < |front|
    ensures Earned(window, front + [step], q) <==> Earned(window, front, q)
  {
    var all := front + [step];
    assert forall i :: 0 <= i < |front| ==> all[i] == front[i];
    if q.start < |front| { assert all[..q.start] == front[..q.start]; }
  }

  lemma EarnedLast(window: real, front: seq<Step>, step: Step, q: Acceptance)
    requires q.end == |front|
    ensures Earned(window, front + [step], q) <==>
      && step.Finish? && step.signatureOk
      && Open(window, front, step.id, q.start)
      && Since(front, q.start) == Waiting(q.nonce, q.timestamp, q.at, q.start)
  {
    var all := front + [step];
    assert all[|front|] == step && forall i :: 0 <= i < |front| ==> all[i] == front[i];
    if q.start < |front| { assert all[..q.start] == front[..q.start]; }
  }

  /** In every interleaving the acceptances are exactly the calls that were fresh when checked, came
      `window` after the acceptance of their nonce inserted last, and were found signed. */
  lemma {:induction false} AcceptanceIff(window: real, steps: seq<Step>, q: Acceptance)
    requires Ordered(steps) && OneCheckEach(steps)
    ensures q in Interleave(window, steps).accepted <==> Earned(window, steps, q)
  {
    if steps != [] {
      var k := |steps| - 1;
      var front, step := steps[..k], steps[k];
      assert steps == front + [step];
      OrderedFront(front, step);
      OneCheckFront(front, step);
      AcceptanceIff(window, front, q);
      StepAccepts(window, Interleave(window, front), k, step, q);
      if q.end < k { EarnedFront(window, front, step, q); }
      if q.end == k {
        EarnedLast(window, front, step, q);
        if step.Finish? { WaitsIff(window, front, step.id, Waiting(q.nonce, q.timestamp, q.at, q.start)); }
      }
    }
  }
}
