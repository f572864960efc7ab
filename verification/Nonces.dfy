/**
 The nonce table of the runner gateway (`verifyRunnerSignature`,
 scripts/langgraph-runtime-gateway.ts, lines 160-224). Hashes and signatures are
 compared by the caller of the model; times are readings of a clock that never runs back.
 The five minutes of the source are the parameter `window`.
 */
module Nonces {
  import opened Text

  /** A signed request as the checks see it: are all headers there, what number is its
      timestamp, do the body hash and the signature match. */
  datatype Request = Request(
    configured: bool, complete: bool, timestamp: Option<real>, nonce: string, hashOk: bool, signatureOk: bool)

  datatype Verdict = NotConfigured | Required | Stale | HashMismatch | Replay | Invalid | Accepted

  /** For each nonce the time at which its entry expires. */
  type Table = map<string, real>

  predicate Fresh(window: real, timestamp: Option<real>, at: real) {
    timestamp.Some? && timestamp.value - window <= at <= timestamp.value + window
  }

  /** The checks before the table is looked at, at clock reading `freshAt`. */
  function Precheck(window: real, request: Request, freshAt: real): Verdict {
    if !request.configured then NotConfigured
    else if !request.complete then Required
    else if !Fresh(window, request.timestamp, freshAt) then Stale
    else if !request.hashOk then HashMismatch
    else Accepted
  }

  function Purged(table: Table, now: real): Table {
    map n | n in table && table[n] > now :: table[n]
  }

  function Judge(window: real, table: Table, request: Request, freshAt: real, now: real): (Verdict, Table) {
    var first := Precheck(window, request, freshAt);
    if first != Accepted then (first, table)
    else
      var live := Purged(table, now);
      if request.nonce in live then (Replay, live)
      else if !request.signatureOk then (Invalid, live)
      else (Accepted, live[request.nonce := now + window])
  }

  class RunnerNonces {
    const window: real
    var table: Table

    constructor (window: real)
      ensures this.window == window && table == map[]
    {
      this.window := window;
      table := map[];
    }

    /** Drops every entry that has expired. */
    method Purge(now: real)
      modifies this
      ensures table == Purged(old(table), now)
    {
      var left := table.Keys;
      ghost var before := table;
      while left != {}
        invariant left <= before.Keys
        invariant forall n :: n in table <==> n in before && (n in left || before[n] > now)
        invariant forall n :: n in table ==> table[n] == before[n]
        decreases left
      {
        var n :| n in left;
        left := left - {n};
        if n in table && table[n] <= now {
          table := table - {n};
        }
      }
    }

    /** One call, from start to end, with no other call in between. `freshAt` is the clock
        reading of the freshness check, `now` the one after the body was hashed. */
    method Verify(request: Request, freshAt: real, now: real) returns (verdict: Verdict)
      modifies this
      ensures (verdict, table) == Judge(window, old(table), request, freshAt, now)
    {
      if !request.configured { return NotConfigured; }
      if !request.complete { return Required; }
      if !Fresh(window, request.timestamp, freshAt) { return Stale; }
      if !request.hashOk { return HashMismatch; }
      Purge(now);
      if request.nonce in table { return Replay; }
      if !request.signatureOk { return Invalid; }
      table := table[request.nonce := now + window];
      return Accepted;
    }
  }

  // ----- the table stands for the history of acceptances

  /** An accepted call: when its nonce was checked, and the steps of the run at which it
      was checked and inserted. */
  datatype Acceptance = Acceptance(nonce: string, timestamp: Option<real>, at: real, start: nat, end: nat)

  /** Acceptances of one nonce are at least `window` apart. */
  predicate Spaced(window: real, accepted: seq<Acceptance>) {
    forall i, j :: 0 <= i < j < |accepted| && accepted[i].nonce == accepted[j].nonce
      ==> accepted[i].at + window <= accepted[j].at
  }

  /** The last acceptance of a nonce. */
  function Last(accepted: seq<Acceptance>, nonce: string): (last: Option<Acceptance>)
    ensures last.Some? ==> last.value in accepted && last.value.nonce == nonce
    ensures last.None? ==> forall q :: q in accepted ==> q.nonce != nonce
  {
    if accepted == [] then None
    else if accepted[|accepted| - 1].nonce == nonce then Some(accepted[|accepted| - 1])
    else Last(accepted[..|accepted| - 1], nonce)
  }

  /** An entry holds the expiry of the last acceptance; a missing entry has expired. */
  ghost predicate Tracks(window: real, table: Table, accepted: seq<Acceptance>, clock: real) {
    && (forall q :: q in accepted ==> q.at <= clock)
    && (forall n :: n in table ==> Last(accepted, n).Some? && table[n] == Last(accepted, n).value.at + window)
    && (forall n :: n !in table && Last(accepted, n).Some? ==> Last(accepted, n).value.at + window <= clock)
  }

  ghost predicate Refines(window: real, table: Table, accepted: seq<Acceptance>, clock: real) {
    Spaced(window, accepted) && Tracks(window, table, accepted, clock)
  }

  lemma PurgeTracks(window: real, table: Table, accepted: seq<Acceptance>, clock: real, now: real)
    requires Tracks(window, table, accepted, clock) && clock <= now
    ensures Tracks(window, Purged(table, now), accepted, now)
  {
  }

  lemma AgeTracks(window: real, table: Table, accepted: seq<Acceptance>, clock: real, later: real)
    requires Tracks(window, table, accepted, clock) && clock <= later
    ensures Tracks(window, table, accepted, later)
  {
  }

  /** In a spaced history the last acceptance of a nonce is the latest. */
  lemma {:induction false} LastIsLatest(window: real, accepted: seq<Acceptance>, q: Acceptance)
    requires Spaced(window, accepted) && window >= 0.0 && q in accepted
    ensures Last(accepted, q.nonce).Some? && q.at <= Last(accepted, q.nonce).value.at
  {
    var k := |accepted| - 1;
    var i :| 0 <= i <= k && accepted[i] == q;
    if i < k && accepted[k].nonce != q.nonce {
      assert accepted[..k][i] == q;
      LastIsLatest(window, accepted[..k], q);
    }
  }

  /** After purging, an entry is there exactly if the nonce was accepted less than
      `window` ago. */
  lemma HasIffRecent(window: real, table: Table, accepted: seq<Acceptance>, clock: real, now: real, nonce: string)
    requires Refines(window, table, accepted, clock) && clock <= now && window >= 0.0
    ensures nonce in Purged(table, now) <==> exists q :: q in accepted && q.nonce == nonce && now < q.at + window
  {
    forall q | q in accepted && q.nonce == nonce && now < q.at + window
      ensures nonce in Purged(table, now)
    {
      LastIsLatest(window, accepted, q);
    }
  }

  lemma LastOfMore(accepted: seq<Acceptance>, q: Acceptance, n: string)
    ensures Last(accepted + [q], n) == if n == q.nonce then Some(q) else Last(accepted, n)
  {
    assert (accepted + [q])[..|accepted|] == accepted;
  }

  lemma InsertTracks(window: real, table: Table, accepted: seq<Acceptance>, clock: real, q: Acceptance)
    requires Tracks(window, table, accepted, clock) && q.at <= clock
    ensures Tracks(window, table[q.nonce := q.at + window], accepted + [q], clock)
  {
    forall n ensures Last(accepted + [q], n) == if n == q.nonce then Some(q) else Last(accepted, n) {
      LastOfMore(accepted, q, n);
    }
  }

  lemma InsertSpaced(window: real, accepted: seq<Acceptance>, q: Acceptance)
    requires Spaced(window, accepted)
    requires forall r :: r in accepted && r.nonce == q.nonce ==> r.at + window <= q.at
    ensures Spaced(window, accepted + [q])
  {
    var more := accepted + [q];
    assert forall i :: 0 <= i < |accepted| ==> more[i] == accepted[i] && accepted[i] in accepted;
  }

  // ----- one call after the other

  datatype Call = Call(request: Request, freshAt: real, now: real)

  /** The clock never runs back, within a call or between calls. */
  predicate InTime(calls: seq<Call>) {
    && (forall i :: 0 <= i < |calls| ==> calls[i].freshAt <= calls[i].now)
    && (forall i, j :: 0 <= i < j < |calls| ==> calls[i].now <= calls[j].freshAt)
  }

  function Note(c: Call, k: nat): Acceptance {
    Acceptance(c.request.nonce, c.request.timestamp, c.now, k, k)
  }

  function After(window: real, table: Table, accepted: seq<Acceptance>, c: Call, k: nat): (Table, seq<Acceptance>) {
    var (verdict, table') := Judge(window, table, c.request, c.freshAt, c.now);
    (table', if verdict == Accepted then accepted + [Note(c, k)] else accepted)
  }

  /** The table after the calls, and the history of acceptances. */
  function Run(window: real, calls: seq<Call>): (Table, seq<Acceptance>) {
    if calls == [] then (map[], [])
    else
      var k := |calls| - 1;
      var (table, accepted) := Run(window, calls[..k]);
      After(window, table, accepted, calls[k], k)
  }

  function Clock(calls: seq<Call>): real
    requires calls != []
  {
    calls[|calls| - 1].now
  }

  lemma AcceptRefines(window: real, table: Table, accepted: seq<Acceptance>, clock: real, c: Call, k: nat)
    requires Refines(window, table, accepted, clock) && clock <= c.now && window >= 0.0
    requires c.request.nonce !in Purged(table, c.now)
    ensures Refines(window, Purged(table, c.now)[c.request.nonce := c.now + window], accepted + [Note(c, k)], c.now)
  {
    PurgeTracks(window, table, accepted, clock, c.now);
    HasIffRecent(window, table, accepted, clock, c.now, c.request.nonce);
    InsertTracks(window, Purged(table, c.now), accepted, c.now, Note(c, k));
    InsertSpaced(window, accepted, Note(c, k));
  }

  lemma JudgeRefines(window: real, table: Table, accepted: seq<Acceptance>, clock: real, c: Call, k: nat)
    requires Refines(window, table, accepted, clock) && clock <= c.now && window >= 0.0
    ensures var (table', accepted') := After(window, table, accepted, c, k); Refines(window, table', accepted', c.now)
  {
    if Precheck(window, c.request, c.freshAt) != Accepted {
      AgeTracks(window, table, accepted, clock, c.now);
      assert After(window, table, accepted, c, k) == (table, accepted);
    } else if c.request.nonce in Purged(table, c.now) || !c.request.signatureOk {
      PurgeTracks(window, table, accepted, clock, c.now);
      assert After(window, table, accepted, c, k) == (Purged(table, c.now), accepted);
    } else {
      AcceptRefines(window, table, accepted, clock, c, k);
    }
  }

  /** Every run keeps the table and the history of acceptances in step. */
  lemma {:induction false} RunRefines(window: real, calls: seq<Call>)
    requires InTime(calls) && calls != [] && window >= 0.0
    ensures var (table, accepted) := Run(window, calls); Refines(window, table, accepted, Clock(calls))
  {
    var k := |calls| - 1;
    var front, c := calls[..k], calls[k];
    var (table, accepted) := Run(window, front);
    if k == 0 {
      JudgeRefines(window, table, accepted, c.now, c, k);
    } else {
      assert Clock(front) == calls[k - 1].now <= c.freshAt;
      RunRefines(window, front);
      JudgeRefines(window, table, accepted, Clock(front), c, k);
    }
  }

  /** A call is accepted exactly if its checks pass and its nonce was not accepted less
      than `window` ago. */
  lemma AcceptedIff(window: real, calls: seq<Call>, c: Call)
    requires InTime(calls + [c]) && window >= 0.0
    ensures var (table, accepted) := Run(window, calls);
      (Judge(window, table, c.request, c.freshAt, c.now).0 == Accepted)
      <==> (&& Precheck(window, c.request, c.freshAt) == Accepted
            && c.request.signatureOk
            && forall q :: q in accepted && q.nonce == c.request.nonce ==> q.at + window <= c.now)
  {
    Earlier(calls, c);
    var (table, accepted) := Run(window, calls);
    if calls != [] {
      RunRefines(window, calls);
      HasIffRecent(window, table, accepted, Clock(calls), c.now, c.request.nonce);
    }
  }

  lemma Earlier(calls: seq<Call>, c: Call)
    requires InTime(calls + [c])
    ensures InTime(calls) && c.freshAt <= c.now
    ensures calls != [] ==> Clock(calls) <= c.freshAt
  {
    var all := calls + [c];
    assert all[|calls|] == c;
    assert forall i :: 0 <= i < |calls| ==> all[i] == calls[i];
  }

  // ----- which requests are accepted again

  /** Everything but the clock lets the request pass. */
  predicate Sound(request: Request) {
    request.configured && request.complete && request.timestamp.Some? && request.hashOk && request.signatureOk
  }

  predicate AcceptedAt(window: real, table: Table, request: Request, freshAt: real, now: real) {
    Judge(window, table, request, freshAt, now).0 == Accepted
  }

  lemma ReadingsFollow(calls: seq<Call>, c: Call)
    requires calls != [] && InTime(calls) && Clock(calls) <= c.freshAt <= c.now
    ensures InTime(calls + [c])
  {
    var all := calls + [c];
    assert forall i :: 0 <= i < |calls| ==> all[i] == calls[i];
    forall i | 0 <= i < |calls| ensures calls[i].now <= c.freshAt {
      assert i < |calls| - 1 ==> calls[i].now <= calls[|calls| - 1].freshAt <= calls[|calls| - 1].now;
    }
  }

  /** After an acceptance of its nonce, a sound request passes at given readings exactly if
      it is fresh at the first and the second comes `window` after that acceptance. */
  lemma AcceptedAgainAt(window: real, calls: seq<Call>, request: Request, q: Acceptance, freshAt: real, now: real)
    requires calls != [] && InTime(calls) && window >= 0.0 && Sound(request)
    requires Last(Run(window, calls).1, request.nonce) == Some(q)
    requires Clock(calls) <= freshAt <= now
    ensures AcceptedAt(window, Run(window, calls).0, request, freshAt, now)
       <==> Fresh(window, request.timestamp, freshAt) && q.at + window <= now
  {
    var c := Call(request, freshAt, now);
    ReadingsFollow(calls, c);
    AcceptedIff(window, calls, c);
    RunRefines(window, calls);
    var accepted := Run(window, calls).1;
    forall r | r in accepted && r.nonce == request.nonce ensures r.at <= q.at {
      LastIsLatest(window, accepted, r);
    }
  }

  /** Exactly which sound requests can be accepted again after an acceptance of their nonce
      at `q.at`, where hashing the body takes at most `delay`: those whose timestamp, plus
      that delay, is not before the acceptance, for as long as they can still be fresh. */
  lemma AcceptedAgainIff(window: real, calls: seq<Call>, request: Request, q: Acceptance, delay: real)
    requires calls != [] && InTime(calls) && window >= 0.0 && delay >= 0.0 && Sound(request)
    requires Last(Run(window, calls).1, request.nonce) == Some(q)
    ensures (exists freshAt, now :: && Clock(calls) <= freshAt <= now <= freshAt + delay
                                    && AcceptedAt(window, Run(window, calls).0, request, freshAt, now))
       <==> q.at <= request.timestamp.value + delay && Clock(calls) <= request.timestamp.value + window
  {
    var table, t := Run(window, calls).0, request.timestamp.value;
    forall freshAt, now | Clock(calls) <= freshAt <= now <= freshAt + delay && AcceptedAt(window, table, request, freshAt, now)
      ensures q.at <= t + delay && Clock(calls) <= t + window
    {
      AcceptedAgainAt(window, calls, request, q, freshAt, now);
    }
    if q.at <= t + delay && Clock(calls) <= t + window {
      var freshAt, now := t + window, t + window + delay;
      AcceptedAgainAt(window, calls, request, q, freshAt, now);
      assert AcceptedAt(window, table, request, freshAt, now);
    }
  }

  /** With one reading of the clock: exactly the requests whose timestamp is not before the
      acceptance. */
  lemma AcceptedAgainAtOnceIff(window: real, calls: seq<Call>, request: Request, q: Acceptance)
    requires calls != [] && InTime(calls) && window >= 0.0 && Sound(request)
    requires Last(Run(window, calls).1, request.nonce) == Some(q)
    ensures (exists now :: Clock(calls) <= now && AcceptedAt(window, Run(window, calls).0, request, now, now))
       <==> q.at <= request.timestamp.value && Clock(calls) <= request.timestamp.value + window
  {
    var table := Run(window, calls).0;
    AcceptedAgainIff(window, calls, request, q, 0.0);
    if freshAt, now :| Clock(calls) <= freshAt <= now <= freshAt + 0.0 && AcceptedAt(window, table, request, freshAt, now) {
      assert freshAt == now && AcceptedAt(window, table, request, now, now);
    }
    forall now | Clock(calls) <= now && AcceptedAt(window, table, request, now, now)
      ensures q.at <= request.timestamp.value && Clock(calls) <= request.timestamp.value + window
    {
      AcceptedAgainAt(window, calls, request, q, now, now);
    }
  }

  /** A first call for a nonce that is not in the table, and is sound and fresh, is accepted. */
  lemma AcceptedNext(window: real, calls: seq<Call>, c: Call)
    requires Sound(c.request) && Fresh(window, c.request.timestamp, c.freshAt)
    requires c.request.nonce !in Purged(Run(window, calls).0, c.now)
    ensures |Run(window, calls + [c]).1| == |Run(window, calls).1| + 1
    ensures Run(window, calls + [c]).0 == Purged(Run(window, calls).0, c.now)[c.request.nonce := c.now + window]
  {
    assert (calls + [c])[..|calls|] == calls;
  }

  lemma PurgeNothing(now: real)
    ensures Purged(map[], now) == map[]
  {
  }

  lemma AcceptedFirst(window: real, c: Call)
    requires Sound(c.request) && Fresh(window, c.request.timestamp, c.freshAt)
    ensures |Run(window, [c]).1| == 1 && Run(window, [c]).0 == map[c.request.nonce := c.now + window]
  {
    var none: seq<Call> := [];
    PurgeNothing(c.now);
    AcceptedNext(window, none, c);
    assert none + [c] == [c];
  }

  lemma AcceptedSecond(window: real, first: Call, second: Call)
    requires Sound(second.request) && Fresh(window, second.request.timestamp, second.freshAt)
    requires Run(window, [first]).0 == map[second.request.nonce := first.now + window] && first.now + window <= second.now
    ensures |Run(window, [first, second]).1| == |Run(window, [first]).1| + 1
  {
    AcceptedNext(window, [first], second);
    assert [first] + [second] == [first, second];
  }

  /** Such a request: its sender's clock is ahead by up to `window`. It is accepted, and
      accepted again when its entry is gone and it is still fresh. */
  lemma AheadAcceptedTwice(window: real, request: Request, at: real, ahead: real)
    requires window > 0.0 && 0.0 <= ahead <= window && Sound(request) && request.timestamp == Some(at + ahead)
    ensures var calls := [Call(request, at, at), Call(request, at + window + ahead, at + window + ahead)];
      InTime(calls) && |Run(window, calls).1| == 2
  {
    var first, second := Call(request, at, at), Call(request, at + window + ahead, at + window + ahead);
    AcceptedFirst(window, first);
    AcceptedSecond(window, first, second);
  }

  // ----- calls that interleave

  /** A call is found fresh (line 187), its body is hashed, and it is checked (lines 199-206);
      a stale one goes no further. It then waits for its signature to be computed, and
      either inserts its nonce (line 222) or is found invalid. */
  datatype Step =
    | Check(id: nat, nonce: string, timestamp: Option<real>, freshAt: real, now: real)
    | Finish(id: nat, signatureOk: bool)

  datatype Waiting = Waiting(nonce: string, timestamp: Option<real>, at: real, start: nat)

  datatype Gateway = Gateway(table: Table, waiting: map<nat, Waiting>, accepted: seq<Acceptance>, clock: real)

  function Advance(window: real, g: Gateway, k: nat, step: Step): Gateway {
    match step
    case Check(id, nonce, timestamp, freshAt, now) =>
      if !Fresh(window, timestamp, freshAt) then g
      else
        var live := Purged(g.table, now);
        var g' := g.(table := live, clock := now);
        if nonce in live || id in g.waiting then g' else g'.(waiting := g.waiting[id := Waiting(nonce, timestamp, now, k)])
    case Finish(id, signatureOk) =>
      if id !in g.waiting then g
      else
        var w := g.waiting[id];
        var g' := g.(waiting := g.waiting - {id});
        if !signatureOk then g'
        else g'.(table := g.table[w.nonce := w.at + window],
                 accepted := g.accepted + [Acceptance(w.nonce, w.timestamp, w.at, w.start, k)])
  }

  function Interleave(window: real, steps: seq<Step>): Gateway {
    if steps == [] then Gateway(map[], map[], [], 0.0)
    else Advance(window, Interleave(window, steps[..|steps| - 1]), |steps| - 1, steps[|steps| - 1])
  }

  predicate Ordered(steps: seq<Step>) {
    && (forall i :: 0 <= i < |steps| && steps[i].Check? ==> 0.0 <= steps[i].now && steps[i].freshAt <= steps[i].now)
    && (forall i, j :: 0 <= i < j < |steps| && steps[i].Check? && steps[j].Check? ==> steps[i].now <= steps[j].now)
  }

  /** No two accepted calls with one nonce were under way at the same time. */
  predicate NoOverlap(accepted: seq<Acceptance>) {
    forall i, j :: 0 <= i < j < |accepted| && accepted[i].nonce == accepted[j].nonce
      ==> accepted[i].end <= accepted[j].start
  }

  /** Accepted calls with one nonce that were under way at the same time were checked, in
      the order of their insertion, at least `window` apart. */
  predicate OverlapsSpaced(window: real, accepted: seq<Acceptance>) {
    forall i, j :: 0 <= i < j < |accepted| && accepted[i].nonce == accepted[j].nonce && accepted[i].end > accepted[j].start
      ==> accepted[i].at + window <= accepted[j].at
  }

  /** What every run with spaced overlaps keeps. */
  ghost predicate Consistent(window: real, g: Gateway, k: nat) {
    && Refines(window, g.table, g.accepted, g.clock)
    && (forall q :: q in g.accepted ==> q.end < k)
    && (forall id :: id in g.waiting ==> WaitingConsistent(window, g, k, g.waiting[id]))
  }

  ghost predicate WaitingConsistent(window: real, g: Gateway, k: nat, w: Waiting) {
    && w.start < k
    && w.at <= g.clock
    && forall q :: q in g.accepted && q.nonce == w.nonce && q.end <= w.start ==> q.at + window <= w.at
  }

  lemma CheckKeeps(window: real, g: Gateway, k: nat, step: Step)
    requires Consistent(window, g, k) && step.Check? && g.clock <= step.now && window >= 0.0
    ensures Consistent(window, Advance(window, g, k, step), k + 1)
  {
    PurgeTracks(window, g.table, g.accepted, g.clock, step.now);
    HasIffRecent(window, g.table, g.accepted, g.clock, step.now, step.nonce);
    var g' := Advance(window, g, k, step);
    forall id | id in g'.waiting ensures WaitingConsistent(window, g', k + 1, g'.waiting[id]) {
      assert id in g.waiting ==> WaitingConsistent(window, g, k, g.waiting[id]);
    }
  }

  lemma OverlapWith(window: real, accepted: seq<Acceptance>, q: Acceptance, r: Acceptance)
    requires OverlapsSpaced(window, accepted + [q]) && r in accepted && r.nonce == q.nonce && r.end > q.start
    ensures r.at + window <= q.at
  {
    var i :| 0 <= i < |accepted| && accepted[i] == r;
    var more := accepted + [q];
    assert more[i] == r && more[|accepted|] == q;
  }

  lemma InsertKeeps(window: real, g: Gateway, k: nat, id: nat)
    requires Consistent(window, g, k) && id in g.waiting
    requires OverlapsSpaced(window, Advance(window, g, k, Finish(id, true)).accepted)
    ensures Consistent(window, Advance(window, g, k, Finish(id, true)), k + 1)
  {
    var w := g.waiting[id];
    var q := Acceptance(w.nonce, w.timestamp, w.at, w.start, k);
    assert WaitingConsistent(window, g, k, w);
    forall r | r in g.accepted && r.nonce == q.nonce ensures r.at + window <= q.at {
      if r.end > q.start { OverlapWith(window, g.accepted, q, r); }
    }
    InsertTracks(window, g.table, g.accepted, g.clock, q);
    InsertSpaced(window, g.accepted, q);
    var g' := Advance(window, g, k, Finish(id, true));
    forall other | other in g'.waiting ensures WaitingConsistent(window, g', k + 1, g'.waiting[other]) {
      assert WaitingConsistent(window, g, k, g.waiting[other]);
    }
  }

  lemma {:induction false} ClockOf(window: real, steps: seq<Step>, now: real)
    requires forall i :: 0 <= i < |steps| && steps[i].Check? ==> steps[i].now <= now
    requires 0.0 <= now
    ensures Interleave(window, steps).clock <= now
  {
    if steps != [] { ClockOf(window, steps[..|steps| - 1], now); }
  }

  lemma {:induction false} InterleaveKeeps(window: real, steps: seq<Step>)
    requires Ordered(steps) && window >= 0.0 && OverlapsSpaced(window, Interleave(window, steps).accepted)
    ensures Consistent(window, Interleave(window, steps), |steps|)
  {
    if steps != [] {
      var k := |steps| - 1;
      var front, step := steps[..k], steps[k];
      var g, g' := Interleave(window, front), Interleave(window, steps);
      assert forall i :: 0 <= i < |g.accepted| ==> g'.accepted[i] == g.accepted[i];
      InterleaveKeeps(window, front);
      if step.Check? {
        ClockOf(window, front, step.now);
        CheckKeeps(window, g, k, step);
      } else if step.id in g.waiting && step.signatureOk {
        InsertKeeps(window, g, k, step.id);
      }
    }
  }

  /** Over every interleaving the acceptances of a nonce are at least `window` apart exactly
      if those of overlapping calls are. */
  lemma SpacedIff(window: real, steps: seq<Step>)
    requires Ordered(steps) && window >= 0.0
    ensures Spaced(window, Interleave(window, steps).accepted) <==> OverlapsSpaced(window, Interleave(window, steps).accepted)
  {
    if OverlapsSpaced(window, Interleave(window, steps).accepted) { InterleaveKeeps(window, steps); }
  }

  /** In particular where accepted calls with one nonce do not overlap. */
  lemma NoOverlapSpaced(window: real, steps: seq<Step>)
    requires Ordered(steps) && window >= 0.0 && NoOverlap(Interleave(window, steps).accepted)
    ensures Spaced(window, Interleave(window, steps).accepted)
  {
    SpacedIff(window, steps);
  }

  // ----- what holds of every interleaving, overlaps or not

  lemma {:induction false} InterleaveTracks(window: real, steps: seq<Step>)
    requires Ordered(steps)
    ensures var g := Interleave(window, steps);
      && Tracks(window, g.table, g.accepted, g.clock)
      && forall id :: id in g.waiting ==> g.waiting[id].at <= g.clock
  {
    if steps != [] {
      var k := |steps| - 1;
      var front, step := steps[..k], steps[k];
      var g := Interleave(window, front);
      InterleaveTracks(window, front);
      if step.Check? {
        ClockOf(window, front, step.now);
        PurgeTracks(window, g.table, g.accepted, g.clock, step.now);
      } else if step.id in g.waiting && step.signatureOk {
        var w := g.waiting[step.id];
        InsertTracks(window, g.table, g.accepted, g.clock, Acceptance(w.nonce, w.timestamp, w.at, w.start, k));
      }
    }
  }

  /** A check passes exactly when the acceptance of its nonce that was inserted last, if
      any, was checked at least `window` ago. An acceptance inserted before that one but
      checked after it does not count. */
  lemma CheckPassesIff(window: real, steps: seq<Step>, nonce: string, now: real)
    requires Ordered(steps) && Interleave(window, steps).clock <= now
    ensures var g := Interleave(window, steps);
      nonce !in Purged(g.table, now)
      <==> (Last(g.accepted, nonce).Some? ==> Last(g.accepted, nonce).value.at + window <= now)
  {
    InterleaveTracks(window, steps);
  }

  /** A call with this nonce and timestamp gets past its check at these readings. */
  predicate PassesAt(window: real, g: Gateway, nonce: string, timestamp: real, freshAt: real, now: real) {
    Fresh(window, Some(timestamp), freshAt) && nonce !in Purged(g.table, now)
  }

  /** Exactly which requests get past the check again in an interleaving, where hashing the
      body takes at most `delay`, other calls running meanwhile: `q` is the acceptance of
      the nonce inserted last. */
  lemma PassesAgainIff(window: real, steps: seq<Step>, nonce: string, timestamp: real, q: Acceptance, delay: real)
    requires Ordered(steps) && window >= 0.0 && delay >= 0.0
    requires Last(Interleave(window, steps).accepted, nonce) == Some(q)
    ensures var g := Interleave(window, steps);
      (exists freshAt, now :: g.clock <= now && freshAt <= now <= freshAt + delay && PassesAt(window, g, nonce, timestamp, freshAt, now))
      <==> q.at <= timestamp + delay && g.clock <= timestamp + window + delay
  {
    var g := Interleave(window, steps);
    forall freshAt, now | g.clock <= now && freshAt <= now <= freshAt + delay && PassesAt(window, g, nonce, timestamp, freshAt, now)
      ensures q.at <= timestamp + delay && g.clock <= timestamp + window + delay
    {
      CheckPassesIff(window, steps, nonce, now);
    }
    if q.at <= timestamp + delay && g.clock <= timestamp + window + delay {
      var freshAt, now := timestamp + window, timestamp + window + delay;
      CheckPassesIff(window, steps, nonce, now);
      assert PassesAt(window, g, nonce, timestamp, freshAt, now);
    }
  }

  lemma InterleaveStep(window: real, steps: seq<Step>, step: Step, g: Gateway)
    requires Interleave(window, steps) == g
    ensures Interleave(window, steps + [step]) == Advance(window, g, |steps|, step)
  {
    assert (steps + [step])[..|steps|] == steps;
  }

  /** The condition is needed: two calls checked before either inserts are both accepted. */
  lemma OverlapBothAccepted(window: real) returns (steps: seq<Step>)
    requires window > 0.0
    ensures Ordered(steps) && !Spaced(window, Interleave(window, steps).accepted)
  {
    PurgeNothing(0.0);
    var g0 := Interleave(window, []);
    var s1 := [] + [Check(1, "n", Some(0.0), 0.0, 0.0)];
    InterleaveStep(window, [], Check(1, "n", Some(0.0), 0.0, 0.0), g0);
    var s2 := s1 + [Check(2, "n", Some(0.0), 0.0, 0.0)];
    InterleaveStep(window, s1, Check(2, "n", Some(0.0), 0.0, 0.0), Interleave(window, s1));
    var s3 := s2 + [Finish(1, true)];
    InterleaveStep(window, s2, Finish(1, true), Interleave(window, s2));
    steps := s3 + [Finish(2, true)];
    InterleaveStep(window, s3, Finish(2, true), Interleave(window, s3));
    var accepted := Interleave(window, steps).accepted;
    assert accepted == [Acceptance("n", Some(0.0), 0.0, 0, 2), Acceptance("n", Some(0.0), 0.0, 1, 3)];
    assert accepted[0].nonce == accepted[1].nonce;
  }

  /** ... and an overlap can harm later calls: a slow call that inserts after a faster one
      replaces its entry by an earlier expiry, and a third call is accepted too soon. */
  lemma LateInsertShortensEntry() returns (steps: seq<Step>)
    ensures Ordered(steps)
    ensures Interleave(2.0, steps).accepted
         == [Acceptance("n", Some(1.0), 1.0, 1, 2), Acceptance("n", Some(0.0), 0.0, 0, 3), Acceptance("n", Some(2.0), 2.0, 4, 5)]
  {
    PurgeNothing(0.0);
    PurgeNothing(1.0);
    var g0 := Interleave(2.0, []);
    var s1 := [] + [Check(1, "n", Some(0.0), 0.0, 0.0)];
    InterleaveStep(2.0, [], Check(1, "n", Some(0.0), 0.0, 0.0), g0);
    var s2 := s1 + [Check(2, "n", Some(1.0), 1.0, 1.0)];
    InterleaveStep(2.0, s1, Check(2, "n", Some(1.0), 1.0, 1.0), Interleave(2.0, s1));
    var s3 := s2 + [Finish(2, true)];
    InterleaveStep(2.0, s2, Finish(2, true), Interleave(2.0, s2));
    var s4 := s3 + [Finish(1, true)];
    InterleaveStep(2.0, s3, Finish(1, true), Interleave(2.0, s3));
    assert Interleave(2.0, s4).table == map["n" := 2.0] && Interleave(2.0, s4).waiting == map[];
    var s5 := s4 + [Check(3, "n", Some(2.0), 2.0, 2.0)];
    InterleaveStep(2.0, s4, Check(3, "n", Some(2.0), 2.0, 2.0), Interleave(2.0, s4));
    assert Purged(map["n" := 2.0], 2.0) == map[];
    steps := s5 + [Finish(3, true)];
    InterleaveStep(2.0, s5, Finish(3, true), Interleave(2.0, s5));
  }
}
