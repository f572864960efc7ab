/**
 Which callbacks of a runner invocation go out, and how it is answered, said of the fields of the
 invocation, the settings and the network (scripts/langgraph-runtime-gateway.ts, lines 369-520
 and 739-856).
 */
module PublicationRules {
  import opened Text
  import opened Characters
  import opened Publication

  // ----- one callback

  /** The callback has an address, there is a secret, and the address lies at the allowed origin. */
  predicate Permitted(w: World, s: nat) {
    && w.callback.Some? && w.callback.value.valid && w.settings(s).secret
    && w.callback.value.origin.Some? && w.settings(s).allowed == Allowed(w.callback.value.origin.value)
  }

  predicate GoesOut(w: World, s: nat) {
    Permitted(w, s) && !w.transport(s).Unsendable?
  }

  predicate Arrives(w: World, s: nat) {
    Permitted(w, s) && w.transport(s).Answer? && 200 <= w.transport(s).status <= 299
  }

  predicate Through(w: World, s: nat) {
    w.callback.None? || Arrives(w, s)
  }

  /** It cannot be written or signed. */
  predicate Breaks(w: World, s: nat) {
    Permitted(w, s) && w.transport(s).Unsendable?
  }

  lemma PostIs(w: World, s: nat)
    ensures Sent(w, s) <==> GoesOut(w, s)
    ensures Post(w, s).Delivered? <==> Arrives(w, s)
    ensures Accepts(w, s) <==> Through(w, s)
    ensures Post(w, s).Raised? <==> Breaks(w, s)
  {
  }

  /** The callback asked for is itself at fault. */
  predicate Misdirected(w: World, s: nat) {
    && w.callback.Some?
    && (|| !w.callback.value.valid
        || (w.settings(s).secret && w.callback.value.origin.None?)
        || (w.settings(s).secret && w.settings(s).allowed.Allowed? && w.callback.value.origin != Some(w.settings(s).allowed.origin)))
  }

  /** The settings do not allow any callback. */
  predicate Unconfigured(w: World, s: nat) {
    && w.callback.Some? && w.callback.value.valid
    && (|| !w.settings(s).secret
        || (w.callback.value.origin.Some? && !w.settings(s).allowed.Allowed?))
  }

  /** The receiver refuses it. */
  predicate Rejected(w: World, s: nat) {
    && Permitted(w, s) && w.transport(s).Answer?
    && (w.transport(s).status < 200 || 300 <= w.transport(s).status < 500)
  }

  /** The receiver fails, or cannot be reached. */
  predicate Lost(w: World, s: nat) {
    Permitted(w, s) && (w.transport(s).NetworkError? || (w.transport(s).Answer? && w.transport(s).status >= 500))
  }

  lemma RefusalIs(w: World, s: nat)
    ensures Post(w, s) == Unsent(400) <==> Misdirected(w, s)
    ensures Post(w, s) == Unsent(500) <==> Unconfigured(w, s)
    ensures Post(w, s) == Undelivered(500) <==> Rejected(w, s)
    ensures Post(w, s) == Undelivered(502) <==> Lost(w, s)
    ensures Post(w, s).Unsent? ==> Post(w, s).status in {400, 500}
    ensures Post(w, s).Undelivered? ==> Post(w, s).status in {500, 502}
  {
  }

  // ----- which callbacks go out

  predicate WritableTo(artifacts: seq<Artifact>, index: nat, i: nat)
    requires index <= i <= |artifacts|
  {
    forall j :: index <= j < i ==> artifacts[j].writable
  }

  predicate ThroughFrom(w: World, s: nat, end: nat) {
    forall t :: s <= t < end ==> Through(w, t)
  }

  /** The loop comes to post the callback of artifact `i`. */
  lemma {:induction false} PostsIff(w: World, artifacts: seq<Artifact>, index: nat, i: nat)
    requires index <= i < |artifacts|
    ensures i < StopFrom(w, artifacts, index).0 <==> WritableTo(artifacts, index, i + 1) && ThroughFrom(w, index + 2, i + 2)
    decreases i - index
  {
    PostIs(w, index + 2);
    if index < i {
      PostsIff(w, artifacts, index + 1, i);
      WritableStep(artifacts, index, i + 1);
      ThroughStep(w, index + 2, i + 2);
    }
  }

  lemma WritableStep(artifacts: seq<Artifact>, index: nat, i: nat)
    requires index < i <= |artifacts|
    ensures WritableTo(artifacts, index, i) <==> artifacts[index].writable && WritableTo(artifacts, index + 1, i)
  {
  }

  lemma ThroughStep(w: World, s: nat, end: nat)
    requires s < end
    ensures ThroughFrom(w, s, end) <==> Through(w, s) && ThroughFrom(w, s + 1, end)
  {
  }

  /** The tool has run well, and its artifacts up to this one can be written. */
  predicate MadeTo(w: World, i: nat) {
    && w.inputValid && w.outputValid && w.execution.Successful?
    && i <= |w.execution.artifacts| && WritableTo(w.execution.artifacts, 0, i)
  }

  /** What must hold before callback `s` is posted. */
  predicate Reached(w: World, s: nat)
    requires s >= 1
  {
    ThroughFrom(w, 1, s) && (s >= 2 ==> MadeTo(w, s - 1))
  }

  lemma PostedIff(w: World, s: nat)
    requires 1 <= s <= |Callbacks(w)|
    ensures s <= Try(w).posted <==> Reached(w, s)
  {
    PostIs(w, 1);
    if s >= 2 {
      ThroughStep(w, 1, s);
      if Runs(w) { PostsIff(w, w.execution.artifacts, 0, s - 2); }
    }
  }

  lemma PublishedAt(w: World, s: nat)
    requires 1 <= s <= |Callbacks(w)|
    ensures s <= Published(w) <==> Reached(w, s) && GoesOut(w, s)
  {
    var m := Try(w).posted;
    PostedIff(w, s);
    PostIs(w, s);
    PostedInTurn(w);
    SkippedAlways(w, s);
    SkippedAlways(w, m);
  }

  /** The text of an artifact's id. */
  function IdText(toolCallId: string, artifacts: seq<Artifact>, index: nat): string
    requires index < |artifacts|
  {
    toolCallId + "-artifact-" + (Sanitize(artifacts[index].kind) + if index == 0 then "" else "-" + Decimal(index + 1))
  }

  /** What callback `s` carries. */
  predicate Carries(w: World, s: nat, id: Option<string>) {
    || (s == 1 && id == None)
    || (&& s >= 2 && w.execution.Successful? && s - 2 < |w.execution.artifacts|
        && id == Some(IdText(w.toolCallId, w.execution.artifacts, s - 2)))
  }

  lemma CallbackAt(w: World, s: nat, id: Option<string>)
    ensures (1 <= s <= |Callbacks(w)| && Callbacks(w)[s - 1] == Publish(s, id)) <==> Carries(w, s, id)
  {
    var artifacts := if w.execution.Successful? then w.execution.artifacts else [];
    assert CallbacksOf(Callbacks(w), w.toolCallId, artifacts);
    if 2 <= s < |artifacts| + 2 {
      assert Callbacks(w)[s - 2 + 1] == PublishArtifact(w.toolCallId, artifacts, s - 2);
    }
  }

  lemma NumberedIn(callbacks: seq<Action>, p: nat, s: nat, id: Option<string>)
    requires Numbered(callbacks) && p <= |callbacks|
    ensures Publish(s, id) in callbacks[..p] <==> 1 <= s <= p && callbacks[s - 1] == Publish(s, id)
  {
    var seen := callbacks[..p];
    if 1 <= s <= p && callbacks[s - 1] == Publish(s, id) { assert seen[s - 1] == Publish(s, id); }
  }

  lemma InLog(w: World, s: nat, id: Option<string>)
    ensures Publish(s, id) in Handle(w) <==> 1 <= s <= Published(w) && Callbacks(w)[s - 1] == Publish(s, id)
  {
    LogShape(w);
    NumberedIn(Callbacks(w), Published(w), s, id);
  }

  predicate ArriveBefore(w: World, s: nat) {
    forall t :: 1 <= t < s ==> Arrives(w, t)
  }

  lemma ArriveIff(w: World, s: nat)
    requires w.callback.Some?
    ensures ArriveBefore(w, s) <==> ThroughFrom(w, 1, s)
  {
    if ArriveBefore(w, s) {
      forall t | 1 <= t < s ensures Through(w, t) { assert Arrives(w, t); }
    }
    if ThroughFrom(w, 1, s) {
      forall t | 1 <= t < s ensures Arrives(w, t) { assert Through(w, t); }
    }
  }

  lemma PublishIfReached(w: World, s: nat, id: Option<string>)
    ensures Publish(s, id) in Handle(w) <==> Carries(w, s, id) && GoesOut(w, s) && Reached(w, s)
  {
    InLog(w, s, id);
    CallbackAt(w, s, id);
    if 1 <= s <= |Callbacks(w)| { PublishedAt(w, s); }
  }

  /** Which callbacks go out, and with which id: callback 1 exactly if it is permitted and can be
      written; that of an artifact exactly if besides all callbacks before it arrived, the tool ran
      well, and no artifact up to this one is unwritable. */
  lemma PublishIff(w: World, s: nat, id: Option<string>)
    ensures Publish(s, id) in Handle(w) <==>
      && Carries(w, s, id) && GoesOut(w, s) && ArriveBefore(w, s)
      && (s >= 2 ==> MadeTo(w, s - 1))
  {
    PublishIfReached(w, s, id);
    if GoesOut(w, s) { ArriveIff(w, s); }
  }

  /** Every callback that goes out goes to the one origin that is allowed, with a secret at hand. */
  lemma OnlyAllowedOrigin(w: World, s: nat, id: Option<string>)
    requires Publish(s, id) in Handle(w)
    ensures w.callback.Some? && w.callback.value.valid && w.settings(s).secret
    ensures w.callback.value.origin.Some? && w.settings(s).allowed.Allowed?
    ensures w.callback.value.origin.value == w.settings(s).allowed.origin
    ensures forall t :: 1 <= t < s ==> w.transport(t).Answer? && 200 <= w.transport(t).status <= 299
  {
    PublishIff(w, s, id);
    forall t | 1 <= t < s ensures w.transport(t).Answer? && 200 <= w.transport(t).status <= 299 { assert Arrives(w, t); }
  }

  // ----- how it is answered

  /** Callback `i + 2` is refused, after those before it arrived. */
  predicate RefusedAt(w: World, artifacts: seq<Artifact>, index: nat, i: nat) {
    && index <= i < |artifacts| && WritableTo(artifacts, index, i + 1) && ThroughFrom(w, index + 2, i + 2)
    && !Through(w, i + 2) && !Breaks(w, i + 2)
  }

  /** Artifact `i` cannot be written, or its callback cannot, after those before it arrived. */
  predicate BrokenAt(w: World, artifacts: seq<Artifact>, index: nat, i: nat) {
    && index <= i < |artifacts| && WritableTo(artifacts, index, i) && ThroughFrom(w, index + 2, i + 2)
    && (!artifacts[i].writable || Breaks(w, i + 2))
  }

  lemma {:induction false} RefusedStop(w: World, artifacts: seq<Artifact>, index: nat, i: nat)
    requires RefusedAt(w, artifacts, index, i)
    ensures StopFrom(w, artifacts, index).1 == Revoked
    decreases i - index
  {
    PostIs(w, index + 2);
    if index < i {
      WritableStep(artifacts, index, i + 1);
      ThroughStep(w, index + 2, i + 2);
      RefusedStop(w, artifacts, index + 1, i);
    }
  }

  lemma {:induction false} BrokenStop(w: World, artifacts: seq<Artifact>, index: nat, i: nat)
    requires BrokenAt(w, artifacts, index, i)
    ensures StopFrom(w, artifacts, index).1 == Throws
    decreases i - index
  {
    PostIs(w, index + 2);
    if index < i {
      WritableStep(artifacts, index, i);
      ThroughStep(w, index + 2, i + 2);
      BrokenStop(w, artifacts, index + 1, i);
    }
  }

  /** Where the loop stopped. */
  lemma {:induction false} StoppedAt(w: World, artifacts: seq<Artifact>, index: nat) returns (i: nat)
    requires index <= |artifacts| && StopFrom(w, artifacts, index).1 != Finished
    ensures RefusedAt(w, artifacts, index, i) || BrokenAt(w, artifacts, index, i)
    decreases |artifacts| - index
  {
    i := index;
    PostIs(w, index + 2);
    if artifacts[index].writable && Through(w, index + 2) {
      i := StoppedAt(w, artifacts, index + 1);
      WritableStep(artifacts, index, i);
      WritableStep(artifacts, index, i + 1);
      ThroughStep(w, index + 2, i + 2);
    }
  }

  /** The first callback got through, and the tool ran well. */
  predicate Made(w: World) {
    Through(w, 1) && w.inputValid && w.outputValid && w.execution.Successful?
  }

  lemma MadeIff(w: World)
    ensures Made(w) <==> Runs(w)
  {
    PostIs(w, 1);
  }

  lemma StopOfRun(w: World)
    requires Made(w)
    ensures Status(Try(w)) ==
      match StopFrom(w, w.execution.artifacts, 0).1
      case Finished => 200
      case Revoked => 409
      case Throws => 502
  {
    PostIs(w, 1);
  }

  lemma RevokedIff(w: World, artifacts: seq<Artifact>)
    ensures StopFrom(w, artifacts, 0).1 == Revoked <==> exists i :: RefusedAt(w, artifacts, 0, i)
    ensures StopFrom(w, artifacts, 0).1 == Throws <==> exists i :: BrokenAt(w, artifacts, 0, i)
  {
    if i: nat :| RefusedAt(w, artifacts, 0, i) { RefusedStop(w, artifacts, 0, i); }
    if i: nat :| BrokenAt(w, artifacts, 0, i) { BrokenStop(w, artifacts, 0, i); }
    if StopFrom(w, artifacts, 0).1 != Finished {
      var i := StoppedAt(w, artifacts, 0);
      if RefusedAt(w, artifacts, 0, i) { RefusedStop(w, artifacts, 0, i); } else { BrokenStop(w, artifacts, 0, i); }
    }
  }

  /** The one status of the response: its head comes after all callbacks, and nothing but the body
      or an exception follows it. */
  lemma HeadIff(w: World, status: int)
    ensures Head(status) in Handle(w) <==> status == Status(Try(w))
  {
    LogShape(w);
    assert forall a :: a in Callbacks(w)[..Published(w)] ==> a in Callbacks(w) && a.Publish?;
  }

  lemma FirstRefused(w: World)
    ensures !Through(w, 1) <==> Misdirected(w, 1) || Unconfigured(w, 1) || Rejected(w, 1) || Lost(w, 1) || Breaks(w, 1)
    ensures Misdirected(w, 1) ==> Status(Try(w)) == 400
    ensures Unconfigured(w, 1) || Rejected(w, 1) ==> Status(Try(w)) == 409
    ensures Lost(w, 1) || Breaks(w, 1) ==> Status(Try(w)) == 502
  {
    PostIs(w, 1);
    RefusalIs(w, 1);
  }

  lemma NotMade(w: World)
    requires Through(w, 1) && !Made(w)
    ensures Status(Try(w)) == 502
  {
    PostIs(w, 1);
  }

  /** When the answer is 400: the callback asked for is at fault. */
  lemma BadRequestIff(w: World)
    ensures Head(400) in Handle(w) <==> Misdirected(w, 1)
  {
    HeadIff(w, 400);
    FirstRefused(w);
    if Made(w) { StopOfRun(w); } else if Through(w, 1) { NotMade(w); }
  }

  /** When it is 409: publication is not configured or was refused, at once or at an artifact. */
  lemma ConflictIff(w: World)
    ensures Head(409) in Handle(w) <==>
      || Unconfigured(w, 1) || Rejected(w, 1)
      || (Made(w) && exists i :: RefusedAt(w, w.execution.artifacts, 0, i))
  {
    HeadIff(w, 409);
    FirstRefused(w);
    if Made(w) {
      StopOfRun(w);
      RevokedIff(w, w.execution.artifacts);
    } else if Through(w, 1) { NotMade(w); }
  }

  /** When it is 502: the first callback was lost or could not be written, the tool did not succeed
      or broke its schemas, or an artifact or its callback could not be written. */
  lemma BadGatewayIff(w: World)
    ensures Head(502) in Handle(w) <==>
      || Lost(w, 1) || Breaks(w, 1)
      || (Through(w, 1) && !(w.inputValid && w.outputValid && w.execution.Successful?))
      || (Made(w) && exists i :: BrokenAt(w, w.execution.artifacts, 0, i))
  {
    HeadIff(w, 502);
    FirstRefused(w);
    if Made(w) {
      StopOfRun(w);
      RevokedIff(w, w.execution.artifacts);
    } else if Through(w, 1) { NotMade(w); }
  }

  lemma AllPublishedIs(w: World)
    requires w.execution.Successful?
    ensures AllPublished(w) <==>
      w.inputValid && w.outputValid && AllWritable(w.execution.artifacts) && ThroughFrom(w, 1, |w.execution.artifacts| + 2)
  {
    forall s: nat ensures Accepts(w, s) <==> Through(w, s) { PostIs(w, s); }
  }

  /** When it is 200: the tool ran well, all it made could be written, and every callback arrived,
      or none was asked for. */
  lemma SuccessIff(w: World)
    ensures Head(200) in Handle(w) <==>
      && w.inputValid && w.outputValid && w.execution.Successful? && AllWritable(w.execution.artifacts)
      && (w.callback.Some? ==> ArriveBefore(w, |w.execution.artifacts| + 2))
  {
    HeadIff(w, 200);
    FirstRefused(w);
    TryAnswers200Iff(w);
    if w.execution.Successful? {
      AllPublishedIs(w);
      if w.callback.Some? { ArriveIff(w, |w.execution.artifacts| + 2); }
    }
    if Made(w) { StopOfRun(w); } else if Through(w, 1) { NotMade(w); }
  }

  /** The result of the tool is sent, and cannot be written. */
  predicate Unfinished(w: World) {
    || (Head(200) in Handle(w) && w.execution.Successful? && !w.execution.writable)
    || (Through(w, 1) && w.inputValid && w.execution.Unsuccessful? && !w.execution.writable)
  }

  /** The body follows unless the tool's own result is to be sent and cannot be written. */
  lemma BodyIff(w: World)
    ensures Body in Handle(w) <==> !Unfinished(w)
    ensures Unhandled in Handle(w) <==> Body !in Handle(w)
  {
    LogShape(w);
    HeadIff(w, 200);
    TryAnswers200Iff(w);
    PostIs(w, 1);
    assert forall a :: a in Callbacks(w)[..Published(w)] ==> a in Callbacks(w) && a.Publish?;
  }

  // ----- the text of an id

  /** Letters, digits, `_` and `-` stay; everything else becomes `-`. */
  lemma SanitizedAt(kind: string, i: nat)
    requires i < |kind|
    ensures |Sanitize(kind)| == |kind|
    ensures var c := kind[i];
      Sanitize(kind)[i] == if c in Digits || c in Small || c in Capital || c == '_' || c == '-' then c else '-'
  {
    DigitIn(kind[i]);
    SmallIn(kind[i]);
    CapitalIn(kind[i]);
  }
}
