/**
 How a runner invocation publishes its callbacks and answers
 (scripts/langgraph-runtime-gateway.ts, lines 80-83, 369-520 and 739-856): one progress
 callback, one callback per artifact, one response.
 */
module Publication {
  import opened Text

  /** The callback an invocation asks for; `valid` says whether its protocol and address are
      given, `origin` is that of the address if it is a URL. */
  datatype Callback = Callback(valid: bool, origin: Option<string>)

  datatype Origin = Unset | NoUrl | Allowed(origin: string)

  /** The environment: whether a signing secret is set, and the origin that is allowed. */
  datatype Settings = Settings(secret: bool, allowed: Origin)

  /** What becomes of a request: writing or signing it throws, the network fails, or it is
      answered with a status. */
  datatype Transport = Unsendable | NetworkError | Answer(status: int)

  /** What becomes of one callback: none is asked for, it is accepted, it is refused before it
      is sent or after, or posting it throws. */
  datatype Delivery = Skipped | Delivered | Unsent(status: int) | Undelivered(status: int) | Raised

  /** An artifact; `writable` says whether its data can be written as JSON. */
  datatype Artifact = Artifact(kind: string, writable: bool)

  /** How the tool ends; `writable` says whether its result can be written as JSON. */
  datatype Execution = Crashed | Unsuccessful(writable: bool) | Successful(artifacts: seq<Artifact>, writable: bool)

  /** Everything the handler is told: the callback asked for, the settings and the network when
      the callback with a given sequence number is posted, whether input and output meet their
      schemas, and how the tool runs. */
  datatype World = World(
    toolCallId: string, callback: Option<Callback>, settings: nat -> Settings, transport: nat -> Transport,
    inputValid: bool, execution: Execution, outputValid: bool)

  /** What is seen from outside: requests with callbacks, the head of a response, its body, and
      an exception that nothing catches. */
  datatype Action = Publish(sequence: nat, artifactId: Option<string>) | Head(status: int) | Body | Unhandled

  // ----- one callback

  function Answered(status: int): Delivery {
    if 200 <= status <= 299 then Delivered else Undelivered(if status >= 500 then 502 else 500)
  }

  /** `postWorkflowCallback` */
  function Post(w: World, sequence: nat): Delivery {
    if w.callback.None? then Skipped
    else
      var callback, settings := w.callback.value, w.settings(sequence);
      if !callback.valid then Unsent(400)
      else if !settings.secret then Unsent(500)
      else if callback.origin.None? then Unsent(400)
      else if !settings.allowed.Allowed? then Unsent(500)
      else if callback.origin.value != settings.allowed.origin then Unsent(400)
      else
        match w.transport(sequence)
        case Unsendable => Raised
        case NetworkError => Undelivered(502)
        case Answer(status) => Answered(status)
  }

  /** The handler goes on after this callback. */
  predicate Accepts(w: World, sequence: nat) {
    Post(w, sequence).Skipped? || Post(w, sequence).Delivered?
  }

  /** A request with this callback goes out. */
  predicate Sent(w: World, sequence: nat) {
    Post(w, sequence).Delivered? || Post(w, sequence).Undelivered?
  }

  /** What is seen of posting a callback. */
  function Posted(w: World, callback: Action): seq<Action>
    requires callback.Publish?
  {
    if Sent(w, callback.sequence) then [callback] else []
  }

  function SafeChar(c: char): char {
    if IsDigit(c) || 'a' <= c <= 'z' || 'A' <= c <= 'Z' || c == '_' || c == '-' then c else '-'
  }

  /** `kind.replace(/[^a-z0-9_-]/gi, "-")` */
  function Sanitize(kind: string): (r: string)
    ensures |r| == |kind| && forall i :: 0 <= i < |kind| ==> r[i] == SafeChar(kind[i])
  {
    if kind == "" then "" else [SafeChar(kind[0])] + Sanitize(kind[1..])
  }

  function Suffix(index: nat): string {
    if index == 0 then "" else "-" + Decimal(index + 1)
  }

  function ArtifactId(toolCallId: string, kind: string, index: nat): string {
    toolCallId + "-artifact-" + (Sanitize(kind) + Suffix(index))
  }

  /** The callback for the artifact at `index`. */
  function PublishArtifact(toolCallId: string, artifacts: seq<Artifact>, index: nat): Action
    requires index < |artifacts|
  {
    Publish(index + 2, Some(ArtifactId(toolCallId, artifacts[index].kind, index)))
  }

  const Progress := Publish(1, None)

  /** Callbacks with the numbers 1, 2, 3, ... */
  predicate Numbered(callbacks: seq<Action>) {
    forall i :: 0 <= i < |callbacks| ==> callbacks[i].Publish? && callbacks[i].sequence == i + 1
  }

  /** One callback, and one with its id for each artifact. */
  predicate CallbacksOf(callbacks: seq<Action>, toolCallId: string, artifacts: seq<Artifact>) {
    && |callbacks| == |artifacts| + 1 && callbacks[0] == Progress
    && forall i :: 0 <= i < |artifacts| ==> callbacks[i + 1] == PublishArtifact(toolCallId, artifacts, i)
  }

  /** All callbacks for these artifacts. */
  function EveryCallback(toolCallId: string, artifacts: seq<Artifact>): (callbacks: seq<Action>)
    ensures Numbered(callbacks) && CallbacksOf(callbacks, toolCallId, artifacts)
  {
    [Progress] + seq(|artifacts|, i requires 0 <= i < |artifacts| => PublishArtifact(toolCallId, artifacts, i))
  }

  /** The callbacks of an invocation, if none of them stops it. */
  function Callbacks(w: World): (callbacks: seq<Action>)
    ensures callbacks != [] && callbacks[0] == Progress && Numbered(callbacks)
  {
    EveryCallback(w.toolCallId, if w.execution.Successful? then w.execution.artifacts else [])
  }

  /** What is seen of posting the first `k` of these callbacks. */
  function Visible(w: World, callbacks: seq<Action>, k: nat): seq<Action>
    requires Numbered(callbacks) && k <= |callbacks|
  {
    if k == 0 then [] else Visible(w, callbacks, k - 1) + Posted(w, callbacks[k - 1])
  }

  datatype Stop = Finished | Throws | Revoked

  /** Where the loop over the artifacts ends, started at `index`, and how: how many callbacks
      have then been posted, one that was not accepted counted. */
  function StopFrom(w: World, artifacts: seq<Artifact>, index: nat): (stop: (nat, Stop))
    requires index <= |artifacts|
    ensures index <= stop.0 <= |artifacts|
    decreases |artifacts| - index
  {
    if index == |artifacts| then (index, Finished)
    else if !artifacts[index].writable then (index, Throws)
    else if Post(w, index + 2).Raised? then (index + 1, Throws)
    else if !Accepts(w, index + 2) then (index + 1, Revoked)
    else StopFrom(w, artifacts, index + 1)
  }

  /** How the `try` block ends, after posting this many callbacks: it throws, or it answers with
      a status and a body that can or cannot be written. */
  datatype Tried = Thrown(posted: nat) | Ended(posted: nat, status: int, writable: bool)

  function TryArtifacts(w: World, artifacts: seq<Artifact>, writable: bool): (t: Tried)
    ensures 1 <= t.posted <= |artifacts| + 1
  {
    var (count, stop) := StopFrom(w, artifacts, 0);
    match stop
    case Finished => Ended(count + 1, 200, writable)
    case Throws => Thrown(count + 1)
    case Revoked => Ended(count + 1, 409, true)
  }

  /** The status for a first callback that was refused with this one. */
  function Refusal(status: int): int {
    if status == 500 then 409 else status
  }

  function Run(w: World): (t: Tried)
    ensures 1 <= t.posted <= |Callbacks(w)|
  {
    if !w.inputValid then Thrown(1)
    else
      match w.execution
      case Crashed => Thrown(1)
      case Unsuccessful(writable) => Ended(1, 502, writable)
      case Successful(artifacts, writable) => if w.outputValid then TryArtifacts(w, artifacts, writable) else Thrown(1)
  }

  function Try(w: World): (t: Tried)
    ensures 1 <= t.posted <= |Callbacks(w)|
  {
    match Post(w, 1)
    case Raised => Thrown(1)
    case Unsent(status) => Ended(1, Refusal(status), true)
    case Undelivered(status) => Ended(1, Refusal(status), true)
    case Skipped => Run(w)
    case Delivered => Run(w)
  }

  /** What the `try` block answers. */
  function Reply(t: Tried): seq<Action> {
    match t
    case Thrown(_) => []
    case Ended(_, status, writable) => if writable then [Head(status), Body] else [Head(status)]
  }

  /** What follows the `try` block. A body that cannot be written leaves a head without its
      body: no second response can follow, and the exception is caught by nothing. */
  function Aftermath(t: Tried): seq<Action> {
    if t.Thrown? then [Head(502), Body] else if t.writable then [] else [Unhandled]
  }

  /** What is seen of the callbacks posted. */
  function Announced(w: World, posted: nat): seq<Action>
    requires posted <= |Callbacks(w)|
  {
    Visible(w, Callbacks(w), posted)
  }

  /** What is seen of one invocation. */
  function Handle(w: World): seq<Action> {
    Announced(w, Try(w).posted) + Reply(Try(w)) + Aftermath(Try(w))
  }

  lemma Appended(log: seq<Action>, a: seq<Action>, b: seq<Action>, c: seq<Action>)
    ensures log + (a + b + c) == log + a + b + c
  {
  }

  lemma VisibleNext(w: World, callbacks: seq<Action>, k: nat, before: seq<Action>)
    requires Numbered(callbacks) && k < |callbacks|
    ensures before + Visible(w, callbacks, k + 1) == before + Visible(w, callbacks, k) + Posted(w, callbacks[k])
  {
  }

  lemma VisibleFirst(w: World)
    ensures Announced(w, 1) == Posted(w, Progress)
  {
    assert Visible(w, Callbacks(w), 0) == [];
  }

  lemma StopNext(w: World, artifacts: seq<Artifact>, index: nat, delivery: Delivery)
    requires index < |artifacts| && artifacts[index].writable && delivery == Post(w, index + 2)
    ensures StopFrom(w, artifacts, index)
         == if delivery.Raised? then (index + 1, Throws)
            else if delivery.Unsent? || delivery.Undelivered? then (index + 1, Revoked)
            else StopFrom(w, artifacts, index + 1)
  {
  }

  /** A request being answered. */
  class Exchange {
    var log: seq<Action>
    var headSent: bool

    constructor ()
      ensures log == [] && !headSent
    {
      log, headSent := [], false;
    }

    /** `json(response, status, body)`: the head is written first, and only once; then the
        body, if it can be. */
    method Json(status: int, writable: bool) returns (threw: bool)
      modifies this
      ensures headSent
      ensures threw <==> old(headSent) || !writable
      ensures log == old(log) + if old(headSent) then [] else if writable then [Head(status), Body] else [Head(status)]
    {
      if headSent { return true; }
      headSent := true;
      log := log + [Head(status)];
      if !writable { return true; }
      log := log + [Body];
      threw := false;
    }

    /** `postWorkflowCallback`: a request goes out only after all checks. */
    method PostCallback(w: World, callback: Action) returns (delivery: Delivery)
      requires callback.Publish?
      modifies this`log
      ensures delivery == Post(w, callback.sequence)
      ensures log == old(log) + Posted(w, callback)
    {
      if w.callback.None? { return Skipped; }
      var asked, settings := w.callback.value, w.settings(callback.sequence);
      if !asked.valid { return Unsent(400); }
      if !settings.secret { return Unsent(500); }
      if asked.origin.None? { return Unsent(400); }
      if settings.allowed.Unset? { return Unsent(500); }
      if settings.allowed.NoUrl? { return Unsent(500); }
      if asked.origin.value != settings.allowed.origin { return Unsent(400); }
      if w.transport(callback.sequence).Unsendable? { return Raised; }
      log := log + [callback];
      if w.transport(callback.sequence).NetworkError? { return Undelivered(502); }
      var status := w.transport(callback.sequence).status;
      if !(200 <= status <= 299) { return Undelivered(if status >= 500 then 502 else 500); }
      return Delivered;
    }

    /** Posting the callback of one artifact. */
    method PublishOne(w: World, artifacts: seq<Artifact>, index: nat, ghost callback: Action) returns (delivery: Delivery)
      requires index < |artifacts| && callback == PublishArtifact(w.toolCallId, artifacts, index)
      modifies this`log
      ensures delivery == Post(w, index + 2)
      ensures log == old(log) + Posted(w, callback)
    {
      delivery := PostCallback(w, PublishArtifact(w.toolCallId, artifacts, index));
    }

    /** The loop over the artifacts, after the first callback: what is then seen of all callbacks,
        and how it ends. */
    method PublishArtifacts(w: World, artifacts: seq<Artifact>, ghost before: seq<Action>, ghost all: seq<Action>)
      returns (stop: Stop)
      requires Numbered(all) && CallbacksOf(all, w.toolCallId, artifacts) && log == before + Visible(w, all, 1)
      modifies this`log
      ensures var (count, how) := StopFrom(w, artifacts, 0); log == before + Visible(w, all, count + 1) && stop == how
    {
      ghost var end := StopFrom(w, artifacts, 0);
      var index := 0;
      while index < |artifacts|
        invariant 0 <= index <= |artifacts|
        invariant log == before + Visible(w, all, index + 1)
        invariant end == StopFrom(w, artifacts, index)
      {
        if !artifacts[index].writable { return Throws; }
        StopNext(w, artifacts, index, Post(w, index + 2));
        VisibleNext(w, all, index + 1, before);
        var delivery := PublishOne(w, artifacts, index, all[index + 1]);
        match delivery
        case Raised => return Throws;
        case Unsent(_) => return Revoked;
        case Undelivered(_) => return Revoked;
        case Skipped => index := index + 1;
        case Delivered => index := index + 1;
      }
      return Finished;
    }

    /** Publishing what a successful tool made, and the answer. */
    method AnswerSuccess(w: World, artifacts: seq<Artifact>, writable: bool, ghost before: seq<Action>, ghost all: seq<Action>)
      returns (threw: bool)
      requires Numbered(all) && CallbacksOf(all, w.toolCallId, artifacts)
      requires !headSent && log == before + Visible(w, all, 1)
      modifies this
      ensures var t := TryArtifacts(w, artifacts, writable);
        log == before + Visible(w, all, t.posted) + Reply(t) && headSent == t.Ended? && (threw <==> t.Thrown? || !t.writable)
    {
      var stop := PublishArtifacts(w, artifacts, before, all);
      match stop {
        case Throws => threw := true;
        case Revoked => threw := Json(409, true);
        case Finished => threw := Json(200, writable);
      }
    }

    /** The tool is run, and the answer given. */
    method RunTool(w: World, ghost before: seq<Action>) returns (threw: bool)
      requires !headSent && log == before + Announced(w, 1)
      modifies this
      ensures var t := Run(w);
        log == before + Announced(w, t.posted) + Reply(t) && headSent == t.Ended? && (threw <==> t.Thrown? || !t.writable)
    {
      if !w.inputValid { return true; }
      match w.execution {
        case Crashed => threw := true;
        case Unsuccessful(writable) => threw := Json(502, writable);
        case Successful(artifacts, writable) =>
          if !w.outputValid { return true; }
          threw := AnswerSuccess(w, artifacts, writable, before, Callbacks(w));
      }
    }

    /** The `try` block. */
    method Attempt(w: World) returns (threw: bool)
      requires !headSent
      modifies this
      ensures var t := Try(w);
        log == old(log) + Announced(w, t.posted) + Reply(t) && headSent == t.Ended? && (threw <==> t.Thrown? || !t.writable)
    {
      VisibleFirst(w);
      var delivery := PostCallback(w, Progress);
      match delivery {
        case Raised => threw := true;
        case Unsent(status) => threw := Json(if status == 500 then 409 else status, true);
        case Undelivered(status) => threw := Json(if status == 500 then 409 else status, true);
        case Skipped => threw := RunTool(w, old(log));
        case Delivered => threw := RunTool(w, old(log));
      }
    }

    /** The handler, and the server around it. */
    method Serve(w: World)
      requires !headSent
      modifies this
      ensures log == old(log) + Handle(w)
    {
      var threw := Attempt(w);
      Recover(Try(w), threw);
      Appended(old(log), Announced(w, Try(w).posted), Reply(Try(w)), Aftermath(Try(w)));
    }

    /** The two `catch` blocks, after a `try` block that ended as `t` says: its exception is
        answered with 502, one that leaves the handler with 500, each if no head was written. */
    method Recover(ghost t: Tried, threw: bool)
      requires headSent == t.Ended? && (threw <==> t.Thrown? || !t.writable)
      modifies this
      ensures log == old(log) + Aftermath(t)
    {
      if !threw { return; }
      var again := Json(502, true);
      if again {
        again := Json(500, true);
        if again { log := log + [Unhandled]; }
      }
    }
  }

  // ----- what every log looks like

  predicate AllWritable(artifacts: seq<Artifact>) {
    forall i :: 0 <= i < |artifacts| ==> artifacts[i].writable
  }

  /** The tool succeeded, and every callback for what it made was accepted, or none is asked for. */
  predicate AllPublished(w: World) {
    && w.inputValid && w.outputValid && w.execution.Successful?
    && AllWritable(w.execution.artifacts)
    && forall s :: 1 <= s <= |w.execution.artifacts| + 1 ==> Accepts(w, s)
  }

  /** All that a complete 200 needs. */
  predicate AllWell(w: World) {
    AllPublished(w) && w.execution.writable
  }

  /** The result is to be sent, and cannot be written. */
  predicate ResultLost(w: World) {
    || (AllPublished(w) && !w.execution.writable)
    || (Accepts(w, 1) && w.inputValid && w.execution.Unsuccessful? && !w.execution.writable)
  }

  /** Callbacks before the stop were accepted; the loop runs to its end exactly if all
      artifacts could be written and all their callbacks were accepted. */
  lemma {:induction false} StopShape(w: World, artifacts: seq<Artifact>, index: nat)
    requires index <= |artifacts|
    ensures var (count, stop) := StopFrom(w, artifacts, index);
      && (forall s :: index + 2 <= s <= count ==> Accepts(w, s))
      && (stop == Finished <==> ((forall i :: index <= i < |artifacts| ==> artifacts[i].writable)
                                 && forall s :: index + 2 <= s <= |artifacts| + 1 ==> Accepts(w, s)))
      && (stop == Finished ==> count == |artifacts|)
    decreases |artifacts| - index
  {
    if index < |artifacts| {
      var accepted, i := Accepts(w, index + 2), index;
      if artifacts[i].writable && accepted { StopShape(w, artifacts, index + 1); }
    }
  }

  /** The handler gets as far as the artifacts. */
  predicate Runs(w: World) {
    Accepts(w, 1) && w.inputValid && w.execution.Successful? && w.outputValid
  }

  lemma SkippedAlways(w: World, s: nat)
    ensures Post(w, s).Skipped? <==> w.callback.None?
    ensures w.callback.None? ==> !Sent(w, s)
    ensures w.callback.Some? ==> (Accepts(w, s) <==> Post(w, s).Delivered?)
  {
  }

  /** How many of `m` posted callbacks are seen, where all but the last were accepted: all of
      them, or all but the last, or none if no callback is asked for. */
  function Count(w: World, m: nat): nat {
    if w.callback.None? || m == 0 then 0 else if Sent(w, m) then m else m - 1
  }

  /** One more callback, numbered `k`, after `k - 1` accepted ones. */
  lemma VisibleMore(w: World, callbacks: seq<Action>, k: nat, before: seq<Action>, last: seq<Action>)
    requires Numbered(callbacks) && 0 < k <= |callbacks|
    requires before == callbacks[..if w.callback.None? then 0 else k - 1]
    requires last == if Sent(w, k) then [callbacks[k - 1]] else []
    ensures before + last == callbacks[..Count(w, k)]
  {
    SkippedAlways(w, k);
    if Sent(w, k) {
      assert callbacks[..k] == callbacks[..k - 1] + [callbacks[k - 1]];
    } else {
      assert before + [] == before;
    }
  }

  /** Of numbered callbacks, all but the last of them accepted, exactly the first ones are seen. */
  lemma {:induction false} VisibleIs(w: World, callbacks: seq<Action>, k: nat)
    requires Numbered(callbacks) && k <= |callbacks| && forall s :: 1 <= s < k ==> Accepts(w, s)
    ensures Visible(w, callbacks, k) == callbacks[..Count(w, k)]
  {
    if k > 0 {
      VisibleIs(w, callbacks, k - 1);
      FrontCount(w, k - 1);
      PostedIs(w, callbacks[k - 1]);
      VisibleMore(w, callbacks, k, Visible(w, callbacks, k - 1), Posted(w, callbacks[k - 1]));
    }
  }

  lemma FrontCount(w: World, k: nat)
    requires k > 0 ==> Accepts(w, k)
    ensures Count(w, k) == if w.callback.None? then 0 else k
  {
    SkippedAlways(w, k);
  }

  lemma PostedIs(w: World, callback: Action)
    requires callback.Publish?
    ensures Posted(w, callback) == if Sent(w, callback.sequence) then [callback] else []
  {
  }

  lemma PublishedIff(w: World)
    requires Runs(w)
    ensures StopFrom(w, w.execution.artifacts, 0).1 == Finished <==> AllPublished(w)
  {
    StopShape(w, w.execution.artifacts, 0);
  }

  lemma LostIff(w: World)
    ensures Try(w).Ended? && !Try(w).writable <==> ResultLost(w)
  {
    if Runs(w) { PublishedIff(w); }
  }

  /** All callbacks posted but the last were accepted. */
  lemma PostedInTurn(w: World)
    ensures forall s :: 1 <= s < Try(w).posted ==> Accepts(w, s)
  {
    if Runs(w) { StopShape(w, w.execution.artifacts, 0); }
  }

  /** How many requests with callbacks are seen. */
  function Published(w: World): (p: nat)
    ensures p <= |Callbacks(w)|
  {
    Count(w, Try(w).posted)
  }

  lemma AnnouncedIs(w: World)
    ensures Announced(w, Try(w).posted) == Callbacks(w)[..Published(w)]
  {
    PostedInTurn(w);
    VisibleIs(w, Callbacks(w), Try(w).posted);
  }

  function Status(t: Tried): int {
    if t.Thrown? then 502 else t.status
  }

  /** What is seen of every invocation: the first callbacks, in order and each with its artifact's
      id; then one head, and after it the body, or, if the result is lost, an exception that
      nothing catches. */
  lemma LogShape(w: World)
    ensures Handle(w)
         == Callbacks(w)[..Published(w)] + [Head(Status(Try(w)))] + [if ResultLost(w) then Unhandled else Body]
  {
    LostIff(w);
    AnnouncedIs(w);
  }

  /** All callbacks seen but the last were delivered, and the handler stops at the first that is
      not accepted. */
  lemma SeenInTurn(w: World)
    ensures forall s :: 1 <= s < Published(w) ==> Post(w, s).Delivered?
    ensures Published(w) > 0 ==> Sent(w, Published(w))
    ensures forall s :: 1 <= s <= |Callbacks(w)| && !Accepts(w, s) ==> Published(w) <= s
  {
    PostedInTurn(w);
    forall s: nat ensures w.callback.Some? ==> (Accepts(w, s) <==> Post(w, s).Delivered?) { SkippedAlways(w, s); }
  }

  /** No callback is seen exactly if none is asked for, or the first is refused before it is
      sent or cannot be written or signed. */
  lemma NonePublishedIff(w: World)
    ensures Published(w) == 0 <==> Post(w, 1).Skipped? || Post(w, 1).Unsent? || Post(w, 1).Raised?
  {
    SeenInTurn(w);
    SkippedAlways(w, 1);
  }

  /** The callback of the last artifact is posted exactly if all artifacts could be written and
      the callbacks of those before it were accepted. */
  lemma {:induction false} LastPosted(w: World, artifacts: seq<Artifact>, index: nat)
    requires index <= |artifacts|
    ensures StopFrom(w, artifacts, index).0 == |artifacts| <==>
      && (forall i :: index <= i < |artifacts| ==> artifacts[i].writable)
      && (forall s :: index + 2 <= s <= |artifacts| ==> Accepts(w, s))
    decreases |artifacts| - index
  {
    if index < |artifacts| && artifacts[index].writable && Accepts(w, index + 2) { LastPosted(w, artifacts, index + 1); }
  }

  lemma AllPublishedOfRun(w: World, k: nat)
    requires Runs(w) && k == |w.execution.artifacts|
    ensures Published(w) == k + 1 <==>
      Sent(w, k + 1) && (forall s :: 1 <= s <= k ==> Accepts(w, s)) && AllWritable(w.execution.artifacts)
  {
    LastPosted(w, w.execution.artifacts, 0);
    SkippedAlways(w, k + 1);
  }

  /** A successful tool's k artifacts: callbacks 1 to k + 1 are all seen exactly if the first k
      were delivered and the last was sent, all artifacts could be written and, if there are
      artifacts, input and output are valid. */
  lemma AllPublishedIff(w: World, k: nat)
    requires w.execution.Successful? && k == |w.execution.artifacts|
    ensures Published(w) == k + 1 <==>
      && Sent(w, k + 1) && (forall s :: 1 <= s <= k ==> Post(w, s).Delivered?)
      && AllWritable(w.execution.artifacts)
      && (k > 0 ==> w.inputValid && w.outputValid)
  {
    SkippedAlways(w, k + 1);
    if w.callback.Some? {
      forall s: nat ensures Accepts(w, s) <==> Post(w, s).Delivered? { SkippedAlways(w, s); }
    }
    if Runs(w) { AllPublishedOfRun(w, k); }
  }

  /** One response completes on every path but one: where the result of the tool is to be
      sent and cannot be written, none does. */
  lemma ResponseCompletesIff(w: World)
    ensures Handle(w)[|Handle(w)| - 1] == (if ResultLost(w) then Unhandled else Body)
  {
    LogShape(w);
  }

  /** Such an invocation: it asks for no callback, and the tool fails with a result that holds,
      say, a big integer. */
  lemma UnwritableResultIsLost(toolCallId: string, settings: nat -> Settings, transport: nat -> Transport)
    ensures Handle(World(toolCallId, None, settings, transport, true, Unsuccessful(false), true)) == [Head(502), Unhandled]
  {
    LogShape(World(toolCallId, None, settings, transport, true, Unsuccessful(false), true));
  }

  predicate EndsWith200(log: seq<Action>) {
    |log| >= 2 && log[|log| - 2] == Head(200) && log[|log| - 1] == Body
  }

  /** A complete 200 is sent exactly when everything went well. */
  lemma OkIffAllWell(w: World)
    ensures EndsWith200(Handle(w)) <==> AllWell(w)
  {
    LogShape(w);
    TryAnswers200Iff(w);
  }

  lemma TryAnswers200Iff(w: World)
    ensures Try(w).Ended? && Try(w).status == 200 <==> AllPublished(w)
  {
    if Runs(w) { PublishedIff(w); }
  }

  /** Then all k + 1 callbacks were sent, callback i + 2 with the id of artifact i, or none if
      none was asked for. */
  lemma AllWellLog(w: World)
    requires AllWell(w)
    ensures Handle(w)
         == (if w.callback.None? then [] else EveryCallback(w.toolCallId, w.execution.artifacts)) + [Head(200), Body]
  {
    var k := |w.execution.artifacts|;
    LogShape(w);
    TryAnswers200Iff(w);
    assert Accepts(w, k + 1);
    SkippedAlways(w, k + 1);
    assert Runs(w) by { assert Accepts(w, 1); }
    AllPublishedOfRun(w, k);
    assert Callbacks(w)[..k + 1] == Callbacks(w);
  }

  // ----- artifact ids

  lemma SuffixInjective(a: string, i: nat, b: string, j: nat)
    requires i > 0 && j > 0 && a + Suffix(i) == b + Suffix(j)
    ensures i == j && a == b
  {
    assert Suffix(i) == ['-'] + Decimal(i + 1) && Suffix(j) == ['-'] + Decimal(j + 1);
    CutLast(a, Decimal(i + 1), '-', b, Decimal(j + 1));
  }

  lemma IdsEqual(id: string, kind: string, i: nat, kind': string, j: nat)
    ensures ArtifactId(id, kind, i) == ArtifactId(id, kind', j)
       <==> Sanitize(kind) + Suffix(i) == Sanitize(kind') + Suffix(j)
  {
    var head, x, y := id + "-artifact-", Sanitize(kind) + Suffix(i), Sanitize(kind') + Suffix(j);
    assert (head + x)[|head|..] == x && (head + y)[|head|..] == y;
  }

  lemma CollisionText(a: string, b: string, dash: string, digits: string)
    ensures a + "" == b + (dash + digits) <==> a == b + dash + digits
  {
    assert b + (dash + digits) == b + dash + digits;
  }

  /** The first sanitized kind is a later one followed by that one's number. */
  predicate Collides(artifacts: seq<Artifact>, i: nat)
    requires 0 < i < |artifacts|
  {
    Sanitize(artifacts[0].kind) == Sanitize(artifacts[i].kind) + "-" + Decimal(i + 1)
  }

  lemma PairDistinct(id: string, artifacts: seq<Artifact>, i: nat, j: nat)
    requires i < j < |artifacts| && (i == 0 ==> !Collides(artifacts, j))
    ensures ArtifactId(id, artifacts[i].kind, i) != ArtifactId(id, artifacts[j].kind, j)
  {
    var a, b := Sanitize(artifacts[i].kind), Sanitize(artifacts[j].kind);
    IdsEqual(id, artifacts[i].kind, i, artifacts[j].kind, j);
    if i > 0 {
      if a + Suffix(i) == b + Suffix(j) { SuffixInjective(a, i, b, j); }
    } else {
      CollisionText(a, b, "-", Decimal(j + 1));
    }
  }

  /** The id of the artifact at `index`. */
  function IdAt(id: string, artifacts: seq<Artifact>, index: nat): string
    requires index < |artifacts|
  {
    ArtifactId(id, artifacts[index].kind, index)
  }

  lemma CollisionCollides(id: string, artifacts: seq<Artifact>, i: nat)
    requires 0 < i < |artifacts| && Collides(artifacts, i)
    ensures IdAt(id, artifacts, 0) == IdAt(id, artifacts, i)
  {
    CollisionText(Sanitize(artifacts[0].kind), Sanitize(artifacts[i].kind), "-", Decimal(i + 1));
    IdsEqual(id, artifacts[0].kind, 0, artifacts[i].kind, i);
  }

  /** The ids of the artifacts of one call are pairwise distinct exactly when the first
      kind, sanitized, is not a later kind, sanitized, followed by `-` and its number. */
  lemma IdsDistinctIff(id: string, artifacts: seq<Artifact>)
    ensures (forall i, j :: 0 <= i < j < |artifacts| ==> IdAt(id, artifacts, i) != IdAt(id, artifacts, j))
       <==> (forall i :: 0 < i < |artifacts| ==> !Collides(artifacts, i))
  {
    if forall i :: 0 < i < |artifacts| ==> !Collides(artifacts, i) {
      forall i, j | 0 <= i < j < |artifacts| ensures IdAt(id, artifacts, i) != IdAt(id, artifacts, j) {
        PairDistinct(id, artifacts, i, j);
      }
    } else {
      var i :| 0 < i < |artifacts| && Collides(artifacts, i);
      CollisionCollides(id, artifacts, i);
    }
  }

  /** Artifacts of the kinds `x-2` and `x` get one id. */
  lemma TwoKindsOneId(id: string)
    ensures IdAt(id, [Artifact("x-2", true), Artifact("x", true)], 0) == IdAt(id, [Artifact("x-2", true), Artifact("x", true)], 1)
  {
    var artifacts := [Artifact("x-2", true), Artifact("x", true)];
    assert Sanitize("x") == "x";
    var k := Sanitize("x-2");
    assert k[0] == 'x' && k[1] == '-' && k[2] == '2';
    assert Decimal(2) == "2";
    assert k == "x" + "-" + "2";
    CollisionCollides(id, artifacts, 1);
  }
}
