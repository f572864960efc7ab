/**
 The byte-capped response reader (`readResponse`, scripts/public-url-inspect.ts,
 lines 138-188), as the handlers of a response's events. The 131072 bytes of the source
 are the parameter `maxBytes`.
 */
module CappedReader {
  import opened Order

  type Byte = n: int | 0 <= n < 256

  datatype Event = Data(chunk: seq<Byte>) | End | Close | Failed

  /** The promise `readResponse` returns. Only its first settlement counts. */
  datatype Promise = Pending | Resolved(body: seq<Byte>, truncated: bool) | Rejected

  /** The variables the handlers share. */
  datatype Reader = Reader(chunks: seq<seq<Byte>>, downloaded: int, truncated: bool, settled: bool, promise: Promise)

  function Settle(promise: Promise, outcome: Promise): Promise {
    if promise.Pending? then outcome else promise
  }

  function Step(maxBytes: nat, r: Reader, event: Event): Reader {
    match event
    case Data(chunk) =>
      var remaining := maxBytes - r.downloaded;
      if remaining <= 0 then r.(truncated := true)
      else
        var accepted := if |chunk| <= remaining then chunk else chunk[..remaining];
        r.(chunks := r.chunks + [accepted], downloaded := r.downloaded + |accepted|,
           truncated := r.truncated || |accepted| < |chunk|)
    case Failed => r.(promise := Settle(r.promise, Rejected))
    case _ =>
      if r.settled then r
      else r.(settled := true, promise := Settle(r.promise, Resolved(Flatten(r.chunks), r.truncated)))
  }

  function Start(): Reader {
    Reader([], 0, false, false, Pending)
  }

  function Run(maxBytes: nat, events: seq<Event>): Reader {
    if events == [] then Start()
    else Step(maxBytes, Run(maxBytes, events[..|events| - 1]), events[|events| - 1])
  }

  class ResponseReader {
    const maxBytes: nat
    var chunks: seq<seq<Byte>>
    var downloaded: int
    var truncated: bool
    var settled: bool
    var promise: Promise

    function State(): Reader
      reads this
    {
      Reader(chunks, downloaded, truncated, settled, promise)
    }

    constructor (maxBytes: nat)
      ensures this.maxBytes == maxBytes && State() == Start()
    {
      this.maxBytes := maxBytes;
      chunks, downloaded, truncated, settled, promise := [], 0, false, false, Pending;
    }

    method OnData(buffer: seq<Byte>)
      modifies this
      ensures State() == Step(maxBytes, old(State()), Data(buffer))
    {
      var remaining := maxBytes - downloaded;
      if remaining <= 0 {
        truncated := true;
        return;
      }
      var accepted := if |buffer| <= remaining then buffer else buffer[..remaining];
      chunks := chunks + [accepted];
      downloaded := downloaded + |accepted|;
      if |accepted| < |buffer| {
        truncated := true;
      }
    }

    /** The handler of both `end` and `close`. */
    method Finish(event: Event)
      requires event.End? || event.Close?
      modifies this
      ensures State() == Step(maxBytes, old(State()), event)
    {
      if settled { return; }
      settled := true;
      if promise.Pending? {
        promise := Resolved(Flatten(chunks), truncated);
      }
    }

    method OnError()
      modifies this
      ensures State() == Step(maxBytes, old(State()), Failed)
    {
      if promise.Pending? {
        promise := Rejected;
      }
    }
  }

  // ----- what the reader delivers

  predicate AllData(events: seq<Event>) {
    forall e :: e in events ==> e.Data?
  }

  /** All the bytes of a sequence of data events. */
  function Received(events: seq<Event>): seq<Byte>
    requires AllData(events)
  {
    if events == [] then [] else Received(events[..|events| - 1]) + events[|events| - 1].chunk
  }

  function Capped(maxBytes: nat, bytes: seq<Byte>): seq<Byte> {
    if |bytes| <= maxBytes then bytes else bytes[..maxBytes]
  }

  /** An empty chunk arrives when the cap has been reached exactly. */
  predicate EmptyAtCap(maxBytes: nat, events: seq<Event>)
    requires AllData(events)
  {
    exists i :: 0 <= i < |events| && |events[i].chunk| == 0 && |Received(events[..i])| == maxBytes
  }

  lemma EmptyAtCapStep(maxBytes: nat, events: seq<Event>)
    requires AllData(events) && events != []
    ensures EmptyAtCap(maxBytes, events) <==>
      || EmptyAtCap(maxBytes, events[..|events| - 1])
      || (|events[|events| - 1].chunk| == 0 && |Received(events[..|events| - 1])| == maxBytes)
  {
    var front := events[..|events| - 1];
    assert forall i :: 0 <= i < |front| ==> front[i] == events[i] && front[..i] == events[..i];
  }

  /** The reader is open and holds the first `maxBytes` of the bytes received; it says
      `truncated` exactly when bytes were dropped or an empty chunk came at the cap. */
  predicate Holds(maxBytes: nat, r: Reader, bytes: seq<Byte>, emptyAtCap: bool) {
    && Flatten(r.chunks) == Capped(maxBytes, bytes)
    && r.downloaded == |Capped(maxBytes, bytes)|
    && (r.truncated <==> |bytes| > maxBytes || emptyAtCap)
    && !r.settled && r.promise == Pending
  }

  lemma HoldsStep(maxBytes: nat, r: Reader, bytes: seq<Byte>, emptyAtCap: bool, chunk: seq<Byte>)
    requires Holds(maxBytes, r, bytes, emptyAtCap)
    ensures Holds(maxBytes, Step(maxBytes, r, Data(chunk)), bytes + chunk, emptyAtCap || (|chunk| == 0 && |bytes| == maxBytes))
  {
  }

  lemma {:induction false} ReaderHolds(maxBytes: nat, events: seq<Event>)
    requires AllData(events)
    ensures Holds(maxBytes, Run(maxBytes, events), Received(events), EmptyAtCap(maxBytes, events))
  {
    if events != [] {
      var front, chunk := events[..|events| - 1], events[|events| - 1].chunk;
      ReaderHolds(maxBytes, front);
      EmptyAtCapStep(maxBytes, events);
      HoldsStep(maxBytes, Run(maxBytes, front), Received(front), EmptyAtCap(maxBytes, front), chunk);
    }
  }

  /** Once settled, the promise keeps its outcome whatever events follow. */
  lemma {:induction false} SettledStays(maxBytes: nat, events: seq<Event>, k: nat)
    requires k <= |events| && !Run(maxBytes, events[..k]).promise.Pending?
    ensures Run(maxBytes, events).promise == Run(maxBytes, events[..k]).promise
  {
    if k == |events| {
      assert events[..k] == events;
    } else {
      assert events[..|events| - 1][..k] == events[..k];
      SettledStays(maxBytes, events[..|events| - 1], k);
    }
  }

  /** The promise settles at the first `end`, `close` or `error`, once, whatever comes
      later. On `end` or `close` the body is the first `maxBytes` bytes received before. */
  lemma SettlesOnce(maxBytes: nat, data: seq<Event>, last: Event, later: seq<Event>)
    requires AllData(data) && !last.Data?
    ensures Run(maxBytes, data).promise == Pending
    ensures Run(maxBytes, data + [last] + later).promise
         == if last.Failed? then Rejected
            else Resolved(Capped(maxBytes, Received(data)), |Received(data)| > maxBytes || EmptyAtCap(maxBytes, data))
  {
    ReaderHolds(maxBytes, data);
    var events := data + [last] + later;
    assert events[..|data| + 1] == data + [last];
    assert (data + [last])[..|data|] == data;
    SettledStays(maxBytes, events, |data| + 1);
  }

  /** Chunking does not matter: two ways of cutting the same bytes into non-empty chunks
      give the same outcome. */
  lemma ChunkingIndependent(maxBytes: nat, data: seq<Event>, data': seq<Event>, last: Event)
    requires AllData(data) && AllData(data') && !last.Data?
    requires (forall e :: e in data ==> |e.chunk| > 0) && forall e :: e in data' ==> |e.chunk| > 0
    requires Received(data) == Received(data')
    ensures Run(maxBytes, data + [last]).promise == Run(maxBytes, data' + [last]).promise
  {
    SettlesOnce(maxBytes, data, last, []);
    SettlesOnce(maxBytes, data', last, []);
    assert data + [last] + [] == data + [last] && data' + [last] + [] == data' + [last];
  }

  /** To the handlers an empty chunk makes a difference: nothing is dropped, yet the body counts
      as truncated. Whether a response ever delivers one is not decided here. */
  lemma EmptyChunkMatters()
    ensures Run(1, [Data([7]), End]).promise == Resolved([7], false)
    ensures Run(1, [Data([7]), Data([]), End]).promise == Resolved([7], true)
  {
    var one, two: seq<Event> := [Data([7])], [Data([7]), Data([])];
    SettlesOnce(1, one, End, []);
    SettlesOnce(1, two, End, []);
    assert one[..0] == [] && two[..1] == one;
    assert |two[1].chunk| == 0 && |Received(two[..1])| == 1;
    assert one + [End] + [] == [Data([7]), End] && two + [End] + [] == [Data([7]), Data([]), End];
  }
}
