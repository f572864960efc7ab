/**
 The incremental reader of server-sent events (scripts/smoke-cloudflare-session-events.ts,
 lines 39-86), against a batch reader of the whole text. Reads do not time out here.
 */
module Sse {
  import opened Text

  /** What `JSON.parse` makes of a data text: a value the reader returns, a value that
      counts as false (`null`, `0`, `false`, `""`), or an exception. */
  datatype Parsed<+E> = Event(event: E) | Falsy | Malformed

  type Parser<!E> = string -> Parsed<E>

  // ----- one block of lines

  /** The `data:` lines of a block, joined without separator, their left margin trimmed. */
  function DataOf(lines: seq<string>): string {
    if lines == [] then ""
    else DataOf(lines[..|lines| - 1]) + LineData(lines[|lines| - 1])
  }

  function LineData(line: string): string {
    if StartsWith(line, "data:") then TrimStart(line[5..]) else ""
  }

  method JoinData(raw: string) returns (data: string)
    ensures data == DataOf(Split(raw, '\n'))
  {
    var lines := Split(raw, '\n');
    data := "";
    for k := 0 to |lines|
      invariant data == DataOf(lines[..k])
    {
      assert lines[..k + 1][..k] == lines[..k];
      if StartsWith(lines[k], "data:") {
        data := data + TrimStart(lines[k][5..]);
      }
    }
    assert lines[..|lines|] == lines;
  }

  predicate Skipped(raw: string) {
    Trim(raw) == "" || StartsWith(raw, ":")
  }

  /** The data of a block; empty if the block yields no event. */
  function BlockData(raw: string): string {
    if Skipped(raw) then "" else DataOf(Split(raw, '\n'))
  }

  // ----- the batch reader: cut the text at every leftmost blank line

  function Batch(text: string): (datas: seq<string>)
    ensures forall d :: d in datas ==> d != ""
    decreases |text|
  {
    var k := IndexOf(text, "\n\n");
    if k == -1 then []
    else
      var data := BlockData(text[..k]);
      (if data == "" then [] else [data]) + Batch(text[k + 2..])
  }

  // ----- the incremental reader

  /** The first data text in the buffer, if any, and the buffer without it and without
      the blocks skipped on the way. */
  function Take(buffer: string): (r: (Option<string>, string))
    ensures |r.1| <= |buffer|
    ensures r.0.Some? ==> |r.1| < |buffer|
    decreases |buffer|
  {
    var k := IndexOf(buffer, "\n\n");
    if k == -1 then (None, buffer)
    else
      var data := BlockData(buffer[..k]);
      if data == "" then Take(buffer[k + 2..]) else (Some(data), buffer[k + 2..])
  }

  /** The whole text a sequence of reads delivers. */
  function Concat(chunks: seq<string>): string {
    if chunks == [] then "" else chunks[0] + Concat(chunks[1..])
  }

  /** A call of `next` returns an event, returns `null`, or throws. */
  datatype Outcome<+E> = Returned(event: E) | Ended | Threw

  /** One call of `next`: the outcome, the buffer and the chunks it leaves. */
  function NextOf<E>(parse: Parser<E>, buffer: string, chunks: seq<string>): (r: (Outcome<E>, string, seq<string>))
    ensures r.0.Returned? ==> |r.1| + |Concat(r.2)| < |buffer| + |Concat(chunks)|
    decreases |chunks|
  {
    var (data, rest) := Take(buffer);
    if data.Some? && parse(data.value).Malformed? then (Threw, rest, chunks)
    else if data.Some? && parse(data.value).Event? then (Returned(parse(data.value).event), rest, chunks)
    else if chunks == [] then (Ended, rest, chunks)
    else NextOf(parse, rest + chunks[0], chunks[1..])
  }

  class SseReader<E> {
    const parse: Parser<E>
    var buffer: string
    /** What the response stream will still deliver, decoded. */
    var chunks: seq<string>

    constructor (parse: Parser<E>, chunks: seq<string>)
      ensures this.parse == parse && this.chunks == chunks && buffer == ""
    {
      this.parse := parse;
      this.chunks := chunks;
      buffer := "";
    }

    method ReadBufferedEvent() returns (parsed: Option<Parsed<E>>)
      modifies this`buffer
      ensures var (data, rest) := Take(old(buffer));
        buffer == rest && parsed == if data.None? then None else Some(parse(data.value))
      decreases |buffer|
    {
      var boundary := IndexOf(buffer, "\n\n");
      if boundary == -1 { return None; }
      var raw := buffer[..boundary];
      buffer := buffer[boundary + 2..];
      if Skipped(raw) {
        parsed := ReadBufferedEvent();
        return;
      }
      var data := JoinData(raw);
      if data == "" {
        parsed := ReadBufferedEvent();
        return;
      }
      return Some(parse(data));
    }

    method Next() returns (outcome: Outcome<E>)
      modifies this
      ensures (outcome, buffer, chunks) == NextOf(parse, old(buffer), old(chunks))
    {
      while true
        invariant NextOf(parse, buffer, chunks) == NextOf(parse, old(buffer), old(chunks))
        decreases |chunks|
      {
        var parsed := ReadBufferedEvent();
        if parsed.Some? {
          match parsed.value
          case Malformed => return Threw;
          case Event(e) => return Returned(e);
          case Falsy =>
        }
        if chunks == [] { return Ended; }
        buffer := buffer + chunks[0];
        chunks := chunks[1..];
      }
    }
  }

  /** The events that `next` returns to a caller that stops at the first call that returns none,
      as `waitForEvent` does (line 102), and how that call ended. */
  function Drain<E>(parse: Parser<E>, buffer: string, chunks: seq<string>): (seq<E>, Outcome<E>)
    decreases |buffer| + |Concat(chunks)|
  {
    var (outcome, buffer', chunks') := NextOf(parse, buffer, chunks);
    if outcome.Returned? then
      var (events, last) := Drain(parse, buffer', chunks');
      ([outcome.event] + events, last)
    else ([], outcome)
  }

  /** The events among parsed data texts. */
  function Events<E>(parse: Parser<E>, datas: seq<string>): seq<E> {
    if datas == [] then []
    else (match parse(datas[0]) case Event(e) => [e] case _ => []) + Events(parse, datas[1..])
  }

  // ----- reading a prefix first does not change what is read

  lemma BoundaryStays(a: string, x: string)
    requires IndexOf(a, "\n\n") != -1
    ensures IndexOf(a + x, "\n\n") == IndexOf(a, "\n\n")
  {
    var k := IndexOf(a, "\n\n");
    var s := a + x;
    assert s[k..k + 2] == a[k..k + 2];
    forall j | 0 <= j < k ensures !At(s, "\n\n", j) {
      assert s[j..j + 2] == a[j..j + 2];
      assert !At(a, "\n\n", j);
    }
    IndexOfUnique(s, "\n\n", k);
  }

  lemma {:induction false} TakeThenBatch(a: string, x: string)
    ensures var (data, rest) := Take(a);
      Batch(a + x) == (if data.None? then [] else [data.value]) + Batch(rest + x)
    decreases |a|
  {
    var k := IndexOf(a, "\n\n");
    if k != -1 {
      BoundaryStays(a, x);
      assert (a + x)[..k] == a[..k] && (a + x)[k + 2..] == a[k + 2..] + x;
      if BlockData(a[..k]) == "" {
        TakeThenBatch(a[k + 2..], x);
      }
    }
  }

  lemma {:induction false} NothingLeft(a: string)
    requires Take(a).0.None?
    ensures Batch(Take(a).1) == []
    decreases |a|
  {
    var k := IndexOf(a, "\n\n");
    if k == -1 {
      assert Take(a).1 == a;
    } else {
      assert Take(a) == Take(a[k + 2..]);
      NothingLeft(a[k + 2..]);
    }
  }

  predicate AllFalsy<E>(parse: Parser<E>, datas: seq<string>) {
    forall d :: d in datas ==> parse(d) == Falsy
  }

  predicate NoneMalformed<E>(parse: Parser<E>, datas: seq<string>) {
    forall d :: d in datas ==> parse(d) != Malformed
  }

  /** No event follows a data text that counts as false. */
  predicate Quiet<E>(parse: Parser<E>, datas: seq<string>) {
    forall i, j :: 0 <= i < j < |datas| && parse(datas[i]).Falsy? ==> !parse(datas[j]).Event?
  }

  lemma Regroup(rest: string, chunks: seq<string>)
    requires chunks != []
    ensures rest + Concat(chunks) == (rest + chunks[0]) + Concat(chunks[1..])
  {
  }

  /** The batch of what is buffered and still to come, after `Take`. */
  lemma TakeStep(buffer: string, chunks: seq<string>)
    ensures var (data, rest) := Take(buffer);
      && Batch(buffer + Concat(chunks)) == (if data.None? then [] else [data.value]) + Batch(rest + Concat(chunks))
      && (chunks != [] ==> Batch(rest + Concat(chunks)) == Batch((rest + chunks[0]) + Concat(chunks[1..])))
  {
    TakeThenBatch(buffer, Concat(chunks));
    if chunks != [] { Regroup(Take(buffer).1, chunks); }
  }

  // ----- every call

  /** What a data text makes some call return, if anything: a value that counts as false is
      taken without a result. */
  function Result<E>(parsed: Parsed<E>): seq<Outcome<E>> {
    match parsed
    case Event(e) => [Returned(e)]
    case Malformed => [Threw]
    case Falsy => []
  }

  /** The results of data texts, in order. */
  function Results<E>(parse: Parser<E>, datas: seq<string>): seq<Outcome<E>> {
    if datas == [] then [] else Result(parse(datas[0])) + Results(parse, datas[1..])
  }

  /** What `n` calls of `next` return or throw, `null` left out. */
  function Calls<E>(parse: Parser<E>, buffer: string, chunks: seq<string>, n: nat): seq<Outcome<E>>
    decreases n
  {
    if n == 0 then []
    else
      var (outcome, buffer', chunks') := NextOf(parse, buffer, chunks);
      (if outcome.Ended? then [] else [outcome]) + Calls(parse, buffer', chunks', n - 1)
  }

  /** The data texts still to come after `n` calls. */
  function Left<E>(parse: Parser<E>, buffer: string, chunks: seq<string>, n: nat): seq<string>
    decreases n
  {
    if n == 0 then Batch(buffer + Concat(chunks))
    else
      var (_, buffer', chunks') := NextOf(parse, buffer, chunks);
      Left(parse, buffer', chunks', n - 1)
  }

  /** One call: its result, if it is not `null`, and those of the data texts it leaves are all
      there is; and it takes a data text if there is one. */
  ghost predicate Advances<E>(parse: Parser<E>, datas: seq<string>, outcome: Outcome<E>, left: seq<string>) {
    && Results(parse, datas) == (if outcome.Ended? then [] else [outcome]) + Results(parse, left)
    && |left| <= |datas| && (datas != [] ==> |left| < |datas|)
  }

  lemma FirstResult<E>(parse: Parser<E>, data: string, datas: seq<string>)
    ensures Results(parse, [data] + datas) == Result(parse(data)) + Results(parse, datas)
  {
    assert ([data] + datas)[1..] == datas;
  }

  lemma TakenLast<E>(parse: Parser<E>, buffer: string)
    requires NextOf(parse, buffer, []).0.Ended?
    ensures Advances(parse, Batch(buffer + Concat([])), Ended, Batch(NextOf(parse, buffer, []).1 + Concat([])))
  {
    var (data, rest) := Take(buffer);
    TakeStep(buffer, []);
    if data.None? {
      NothingLeft(buffer);
      assert rest + Concat([]) == rest;
    } else {
      FirstResult(parse, data.value, Batch(rest + Concat([])));
    }
  }

  lemma AdvancesFrom<E>(parse: Parser<E>, data: Option<string>, datas: seq<string>, outcome: Outcome<E>, left: seq<string>)
    requires Advances(parse, datas, outcome, left) && (data.Some? ==> parse(data.value).Falsy?)
    ensures Advances(parse, (if data.None? then [] else [data.value]) + datas, outcome, left)
  {
    if data.Some? { FirstResult(parse, data.value, datas); } else { assert [] + datas == datas; }
  }

  lemma TakenFirst<E>(parse: Parser<E>, buffer: string, chunks: seq<string>)
    requires Take(buffer).0.Some? && !parse(Take(buffer).0.value).Falsy?
    ensures var (outcome, buffer', chunks') := NextOf(parse, buffer, chunks);
      Advances(parse, Batch(buffer + Concat(chunks)), outcome, Batch(buffer' + Concat(chunks')))
  {
    var (data, rest) := Take(buffer);
    TakeStep(buffer, chunks);
    FirstResult(parse, data.value, Batch(rest + Concat(chunks)));
  }

  lemma {:induction false} NextAdvances<E>(parse: Parser<E>, buffer: string, chunks: seq<string>)
    ensures var (outcome, buffer', chunks') := NextOf(parse, buffer, chunks);
      Advances(parse, Batch(buffer + Concat(chunks)), outcome, Batch(buffer' + Concat(chunks')))
    decreases |chunks|
  {
    var (data, rest) := Take(buffer);
    if data.Some? && !parse(data.value).Falsy? {
      TakenFirst(parse, buffer, chunks);
    } else if chunks == [] {
      TakenLast(parse, buffer);
    } else {
      var (outcome, buffer', chunks') := NextOf(parse, rest + chunks[0], chunks[1..]);
      TakeStep(buffer, chunks);
      NextAdvances(parse, rest + chunks[0], chunks[1..]);
      AdvancesFrom(parse, data, Batch(rest + Concat(chunks)), outcome, Batch(buffer' + Concat(chunks')));
    }
  }

  /** The calls so far, the data texts left, and the batch. */
  ghost predicate Conserves<E>(parse: Parser<E>, datas: seq<string>, calls: seq<Outcome<E>>, left: seq<string>, n: nat) {
    && calls + Results(parse, left) == Results(parse, datas)
    && |left| <= |datas| && (left != [] ==> |left| + n <= |datas|)
  }

  lemma ConservesNext<E>(parse: Parser<E>, datas: seq<string>, outcome: Outcome<E>, next: seq<string>,
                         calls: seq<Outcome<E>>, left: seq<string>, n: nat)
    requires Advances(parse, datas, outcome, next) && Conserves(parse, next, calls, left, n)
    ensures Conserves(parse, datas, (if outcome.Ended? then [] else [outcome]) + calls, left, n + 1)
  {
    var first := if outcome.Ended? then [] else [outcome];
    assert first + calls + Results(parse, left) == first + (calls + Results(parse, left));
  }

  /** Nothing is lost, repeated or reordered: at every moment the results so far and those of the
      data texts still to come are the results of the batch; and each call takes at least one. */
  lemma {:induction false} CallsSoFar<E>(parse: Parser<E>, buffer: string, chunks: seq<string>, n: nat)
    ensures Conserves(parse, Batch(buffer + Concat(chunks)), Calls(parse, buffer, chunks, n), Left(parse, buffer, chunks, n), n)
    decreases n
  {
    if n > 0 {
      var (outcome, buffer', chunks') := NextOf(parse, buffer, chunks);
      NextAdvances(parse, buffer, chunks);
      CallsSoFar(parse, buffer', chunks', n - 1);
      ConservesNext(parse, Batch(buffer + Concat(chunks)), outcome, Batch(buffer' + Concat(chunks')),
                    Calls(parse, buffer', chunks', n - 1), Left(parse, buffer', chunks', n - 1), n - 1);
    }
  }

  /** Enough calls of `next` return all events of the batch, in order, and throw for each malformed
      text, however the text is divided into reads. */
  lemma AllCalls<E>(parse: Parser<E>, buffer: string, chunks: seq<string>, n: nat)
    requires n >= |Batch(buffer + Concat(chunks))|
    ensures Calls(parse, buffer, chunks, n) == Results(parse, Batch(buffer + Concat(chunks)))
  {
    CallsSoFar(parse, buffer, chunks, n);
    assert Left(parse, buffer, chunks, n) == [];
  }

  /** The division of a text into reads does not matter. */
  lemma ChunkingIndependence<E>(parse: Parser<E>, chunks: seq<string>, chunks': seq<string>, n: nat)
    requires Concat(chunks) == Concat(chunks') && n >= |Batch(Concat(chunks))|
    ensures Calls(parse, "", chunks, n) == Calls(parse, "", chunks', n)
  {
    assert "" + Concat(chunks) == Concat(chunks);
    AllCalls(parse, "", chunks, n);
    AllCalls(parse, "", chunks', n);
  }

  function AllReturned<E>(events: seq<E>): seq<Outcome<E>> {
    if events == [] then [] else [Returned(events[0])] + AllReturned(events[1..])
  }

  lemma FirstReturned<E>(event: E, events: seq<E>)
    ensures AllReturned([event] + events) == [Returned(event)] + AllReturned(events)
  {
    assert ([event] + events)[1..] == events;
  }

  /** With no malformed data the results are the events. */
  lemma {:induction false} ResultsAreEvents<E>(parse: Parser<E>, datas: seq<string>)
    requires NoneMalformed(parse, datas)
    ensures Results(parse, datas) == AllReturned(Events(parse, datas))
  {
    if datas != [] {
      ResultsAreEvents(parse, datas[1..]);
      if parse(datas[0]).Event? {
        FirstReturned(parse(datas[0]).event, Events(parse, datas[1..]));
      } else {
        assert Results(parse, datas) == Results(parse, datas[1..]) && Events(parse, datas) == Events(parse, datas[1..]);
      }
    }
  }

  /** With no malformed data, enough calls return exactly the events of the batch, in order. */
  lemma AllEvents<E>(parse: Parser<E>, buffer: string, chunks: seq<string>, n: nat)
    requires NoneMalformed(parse, Batch(buffer + Concat(chunks))) && n >= |Batch(buffer + Concat(chunks))|
    ensures Calls(parse, buffer, chunks, n) == AllReturned(Events(parse, Batch(buffer + Concat(chunks))))
  {
    AllCalls(parse, buffer, chunks, n);
    ResultsAreEvents(parse, Batch(buffer + Concat(chunks)));
  }

  // ----- a caller that stops at the first `null`

  lemma {:induction false} AllFalsyEnds<E>(parse: Parser<E>, buffer: string, chunks: seq<string>)
    requires AllFalsy(parse, Batch(buffer + Concat(chunks)))
    ensures NextOf(parse, buffer, chunks).0 == Ended
    decreases |chunks|
  {
    var (data, rest) := Take(buffer);
    var datas := Batch(buffer + Concat(chunks));
    TakeStep(buffer, chunks);
    assert data.Some? ==> datas[0] == data.value;
    if chunks != [] {
      assert forall d :: d in Batch(rest + Concat(chunks)) ==> d in datas;
      AllFalsyEnds(parse, rest + chunks[0], chunks[1..]);
    }
  }

  /** What a call of `next` that ends with this outcome takes from a batch: the next
      event, or nothing when no event is left. */
  ghost predicate Steps<E>(parse: Parser<E>, datas: seq<string>, outcome: Outcome<E>, left: seq<string>) {
    match outcome
    case Threw => false
    case Returned(e) => datas != [] && parse(datas[0]) == Event(e) && left == datas[1..]
    case Ended => forall d :: d in datas ==> !parse(d).Event?
  }

  /** The data text taken is an event, or counts as false and no event follows it. */
  lemma TakenInQuiet<E>(parse: Parser<E>, buffer: string, chunks: seq<string>, datas: seq<string>)
    requires datas == Batch(buffer + Concat(chunks)) && Take(buffer).0.Some?
    requires NoneMalformed(parse, datas) && Quiet(parse, datas)
    ensures var (outcome, buffer', chunks') := NextOf(parse, buffer, chunks);
      Steps(parse, datas, outcome, Batch(buffer' + Concat(chunks')))
  {
    var (data, rest) := Take(buffer);
    TakeStep(buffer, chunks);
    assert datas[0] == data.value && datas[1..] == Batch(rest + Concat(chunks));
    if parse(data.value).Falsy? { AllFalsyEnds(parse, buffer, chunks); }
  }

  lemma {:induction false} NextInQuiet<E>(parse: Parser<E>, buffer: string, chunks: seq<string>, datas: seq<string>)
    requires datas == Batch(buffer + Concat(chunks))
    requires NoneMalformed(parse, datas) && Quiet(parse, datas)
    ensures var (outcome, buffer', chunks') := NextOf(parse, buffer, chunks);
      Steps(parse, datas, outcome, Batch(buffer' + Concat(chunks')))
    decreases |chunks|
  {
    var (data, rest) := Take(buffer);
    if data.Some? {
      TakenInQuiet(parse, buffer, chunks, datas);
    } else if chunks == [] {
      TakeStep(buffer, chunks);
      NothingLeft(buffer);
      assert rest + Concat(chunks) == rest;
    } else {
      TakeStep(buffer, chunks);
      NextInQuiet(parse, rest + chunks[0], chunks[1..], datas);
    }
  }

  /** In a quiet batch it gets all the events, in order, however the text is divided into reads. */
  lemma {:induction false} DrainIsBatch<E>(parse: Parser<E>, buffer: string, chunks: seq<string>)
    requires NoneMalformed(parse, Batch(buffer + Concat(chunks)))
    requires Quiet(parse, Batch(buffer + Concat(chunks)))
    ensures Drain(parse, buffer, chunks) == (Events(parse, Batch(buffer + Concat(chunks))), Ended)
    decreases |buffer| + |Concat(chunks)|
  {
    var datas := Batch(buffer + Concat(chunks));
    var (outcome, buffer', chunks') := NextOf(parse, buffer, chunks);
    NextInQuiet(parse, buffer, chunks, datas);
    if outcome.Returned? {
      DrainIsBatch(parse, buffer', chunks');
    } else {
      NoEvents(parse, datas);
    }
  }

  lemma {:induction false} NoEvents<E>(parse: Parser<E>, datas: seq<string>)
    requires forall d :: d in datas ==> !parse(d).Event?
    ensures Events(parse, datas) == []
  {
    if datas != [] { NoEvents(parse, datas[1..]); }
  }

  // ----- exactly when the division into reads does not matter to it

  /** The events before the first data text that counts as false. */
  function Leading<E>(parse: Parser<E>, datas: seq<string>): seq<E> {
    if datas == [] || !parse(datas[0]).Event? then []
    else [parse(datas[0]).event] + Leading(parse, datas[1..])
  }

  lemma {:induction false} OneReadStopsEarly<E>(parse: Parser<E>, buffer: string)
    requires NoneMalformed(parse, Batch(buffer))
    ensures Drain(parse, buffer, []).0 == Leading(parse, Batch(buffer))
    decreases |buffer|
  {
    var (data, rest) := Take(buffer);
    TakeThenBatch(buffer, "");
    assert buffer + "" == buffer && rest + "" == rest;
    if data.None? {
      NothingLeft(buffer);
    } else {
      assert data.value in Batch(buffer);
      assert Batch(buffer)[1..] == Batch(rest);
      if parse(data.value).Event? {
        assert forall d :: d in Batch(rest) ==> d in Batch(buffer);
        OneReadStopsEarly(parse, rest);
      }
    }
  }

  lemma {:induction false} LeadingMissesEvents<E>(parse: Parser<E>, datas: seq<string>, i: nat, j: nat)
    requires i < j < |datas| && parse(datas[i]).Falsy? && parse(datas[j]).Event?
    ensures |Leading(parse, datas)| < |Events(parse, datas)|
  {
    if parse(datas[0]).Event? {
      LeadingMissesEvents(parse, datas[1..], i - 1, j - 1);
    } else {
      HasEvent(parse, datas, j);
    }
  }

  lemma {:induction false} HasEvent<E>(parse: Parser<E>, datas: seq<string>, j: nat)
    requires j < |datas| && parse(datas[j]).Event?
    ensures |Events(parse, datas)| > 0
  {
    if j > 0 { HasEvent(parse, datas[1..], j - 1); }
  }

  /** With no malformed data, a caller that stops at the first `null` gets the events of the batch
      for every division of the text into reads exactly when no event follows a value that counts
      as false. */
  lemma StoppingEarlyIff<E>(parse: Parser<E>, text: string)
    requires NoneMalformed(parse, Batch(text))
    ensures Quiet(parse, Batch(text))
       <==> forall chunks :: Concat(chunks) == text ==> Drain(parse, "", chunks).0 == Events(parse, Batch(text))
  {
    var datas := Batch(text);
    if Quiet(parse, datas) {
      forall chunks | Concat(chunks) == text ensures Drain(parse, "", chunks).0 == Events(parse, datas) {
        assert "" + Concat(chunks) == text;
        DrainIsBatch(parse, "", chunks);
      }
    } else {
      var i, j :| 0 <= i < j < |datas| && parse(datas[i]).Falsy? && parse(datas[j]).Event?;
      LeadingMissesEvents(parse, datas, i, j);
      OneRead(parse, text);
      assert Concat([text]) == text;
    }
  }

  lemma OneRead<E>(parse: Parser<E>, text: string)
    requires NoneMalformed(parse, Batch(text))
    ensures Drain(parse, "", [text]).0 == Leading(parse, Batch(text))
  {
    assert Take("") == (None, "");
    assert "" + text == text;
    assert NextOf(parse, "", [text]) == NextOf(parse, text, []);
    OneReadStopsEarly(parse, text);
  }

  // ----- writing and reading back

  /** A payload that survives the reader: no line break, nothing trimmed on its left. */
  predicate Plain(payload: string) {
    payload != "" && '\n' !in payload && !IsSpace(payload[0])
  }

  function Encode(payloads: seq<string>): string {
    if payloads == [] then "" else "data:" + payloads[0] + "\n\n" + Encode(payloads[1..])
  }

  lemma OneBlock(payload: string, raw: string)
    requires Plain(payload) && raw == "data:" + payload
    ensures '\n' !in raw && BlockData(raw) == payload
  {
    var head := "data:";
    assert raw[..5] == head && raw[5..] == payload && raw[0] == head[0];
    assert raw[..5] + payload == raw;
    assert '\n' !in head;
    TrimEndStart(raw);
    assert TrimStart(raw) == raw;
    SplitNone(raw, '\n');
    OneLine(raw);
  }

  lemma OneLine(line: string)
    ensures DataOf([line]) == LineData(line)
  {
    assert [line][..0] == [];
  }

  lemma BlockEnd(raw: string, rest: string)
    requires '\n' !in raw
    ensures IndexOf(raw + ("\n\n" + rest), "\n\n") == |raw|
  {
    var s := raw + ("\n\n" + rest);
    assert s[|raw|..|raw| + 2] == "\n\n";
    forall j | 0 <= j < |raw| ensures !At(s, "\n\n", j) {
      assert s[j] == raw[j] && raw[j] in raw;
      assert s[j..j + 2][0] == s[j];
    }
    IndexOfUnique(s, "\n\n", |raw|);
  }

  /** Round trip: what is written as `data:` blocks is read back, payload by payload. */
  lemma {:induction false} EncodedIsReadBack(payloads: seq<string>)
    requires forall p :: p in payloads ==> Plain(p)
    ensures Batch(Encode(payloads)) == payloads
  {
    if payloads != [] {
      var raw, rest := "data:" + payloads[0], Encode(payloads[1..]);
      var text := raw + ("\n\n" + rest);
      assert Encode(payloads) == text;
      OneBlock(payloads[0], raw);
      BlockEnd(raw, rest);
      assert text[..|raw|] == raw && text[|raw| + 2..] == rest;
      EncodedIsReadBack(payloads[1..]);
    }
  }

  // ----- an event that comes one call later

  lemma TakeBlock(payload: string)
    requires Plain(payload)
    ensures Take(Encode([payload])) == (Some(payload), "")
  {
    var raw := "data:" + payload;
    var text := raw + ("\n\n" + "");
    assert [payload][1..] == [];
    assert Encode([payload]) == text;
    OneBlock(payload, raw);
    BlockEnd(raw, "");
    assert text[..|raw|] == raw && text[|raw| + 2..] == "";
  }

  lemma NextSkips<E>(parse: Parser<E>, buffer: string, data: string, chunk: string, more: seq<string>)
    requires Take(buffer) == (Some(data), "") && parse(data).Falsy?
    ensures NextOf(parse, buffer, [chunk] + more) == NextOf(parse, chunk, more)
  {
    assert ([chunk] + more)[1..] == more && "" + chunk == chunk;
  }

  lemma FirstRead<E>(parse: Parser<E>, chunk: string, more: seq<string>)
    ensures NextOf(parse, "", [chunk] + more) == NextOf(parse, chunk, more)
  {
    assert Take("") == (None, "");
    assert ([chunk] + more)[1..] == more && "" + chunk == chunk;
  }

  lemma NothingToDrain<E>(parse: Parser<E>)
    ensures Drain(parse, "", []) == ([], Ended)
  {
    assert Take("") == (None, "");
  }

  lemma DrainOne<E>(parse: Parser<E>, chunks: seq<string>, event: E)
    requires NextOf(parse, "", chunks) == (Returned(event), "", [])
    ensures Drain(parse, "", chunks).0 == [event]
  {
    NothingToDrain(parse);
  }

  lemma TwoReads<E>(parse: Parser<E>, first: string, second: string, falsy: string, payload: string, event: E)
    requires Take(first) == (Some(falsy), "") && parse(falsy).Falsy?
    requires Take(second) == (Some(payload), "") && parse(payload) == Event(event)
    ensures Drain(parse, "", [first, second]).0 == [event]
  {
    FirstRead(parse, first, [second]);
    assert [first] + [second] == [first, second] && [second] + [] == [second];
    NextSkips(parse, first, falsy, second, []);
    DrainOne(parse, [first, second], event);
  }

  lemma EncodeTwo(a: string, b: string)
    ensures Encode([a, b]) == Encode([a]) + Encode([b])
  {
    assert [a, b][1..] == [b] && [a][1..] == [] && [b][1..] == [];
  }

  lemma ConcatOne(chunk: string)
    ensures Concat([chunk]) == chunk
  {
  }

  lemma ConcatTwo(a: string, b: string)
    ensures Concat([a, b]) == a + b
  {
    assert [a, b][1..] == [b];
    ConcatOne(b);
  }

  /** A payload that counts as false, such as `null`, and an event after it, in one read: the first
      call returns `null` and the second the event. With one read for each block, the first call
      returns the event. */
  lemma FalsyDelaysEvent<E>(parse: Parser<E>, falsy: string, payload: string, event: E)
    requires Plain(falsy) && parse(falsy).Falsy? && Plain(payload) && parse(payload) == Event(event)
    ensures Concat([Encode([falsy]), Encode([payload])]) == Concat([Encode([falsy, payload])])
    ensures Drain(parse, "", [Encode([falsy, payload])]).0 == []
    ensures Calls(parse, "", [Encode([falsy, payload])], 2) == [Returned(event)]
    ensures Drain(parse, "", [Encode([falsy]), Encode([payload])]).0 == [event]
  {
    var both := [falsy, payload];
    EncodeTwo(falsy, payload);
    ConcatOne(Encode(both));
    ConcatTwo(Encode([falsy]), Encode([payload]));
    EncodedIsReadBack(both);
    OneRead(parse, Encode(both));
    assert "" + Encode(both) == Encode(both) && both[1..] == [payload];
    AllCalls(parse, "", [Encode(both)], 2);
    FirstResult(parse, falsy, [payload]);
    FirstResult(parse, payload, []);
    assert [falsy] + [payload] == both && [payload] + [] == [payload];
    TakeBlock(falsy);
    TakeBlock(payload);
    TwoReads(parse, Encode([falsy]), Encode([payload]), falsy, payload, event);
  }
}
