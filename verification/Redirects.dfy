/**
 The redirect-following loop of `inspectPublicUrl` (scripts/public-url-inspect.ts,
 lines 21-30, 100-103, 126-136 and 200-356). The network is an oracle that may answer
 differently at every step; the bound 3 of the source is the parameter `maxRedirects`.
 */
module Redirects {
  import opened Text
  import AddressGrammar
  import AddressText
  import PublicAddress

  /** The parts of a parsed URL that the loop reads; `text` is `url.toString()`. */
  datatype Url = Url(protocol: string, username: string, password: string, port: string, hostname: string, text: string)

  datatype Policy = Policy(allowedHosts: seq<string>, deniedHosts: seq<string>)

  /** Why an attempt to reach the network failed. */
  datatype Failure = TimedOut | Broken

  datatype Lookup = Addresses(addresses: seq<string>) | LookupFailed(failure: Failure)

  datatype Response = Response(status: int, location: Option<string>) | NoResponse(failure: Failure)

  /** The outside world: at each step it resolves names, answers requests and parses
      locations. `public` is `isPublicInternetAddress`, `isAddress` is `isIP`. */
  datatype World = World(
    isAddress: string -> bool,
    public: string -> bool,
    lookup: (nat, string) -> Lookup,
    fetch: (nat, Url, string) -> Response,
    parse: (string, Url) -> Option<Url>)

  datatype Error =
    | ProtocolBlocked | CredentialsBlocked | PortBlocked | HostBlocked | RedirectLoop | RedirectInvalid
    | RedirectLimit | RedirectBlocked | AddressBlocked | InspectTimeout | InspectFailed

  datatype Result = Ok(finalUrl: string, status: int) | Err(error: Error)

  /** A request that was sent: to which URL, at which address. */
  datatype Request = Request(url: Url, address: string)

  predicate MatchesHost(hostname: string, pattern: string) {
    var host, normalized := Lower(hostname), Lower(Trim(pattern));
    if normalized == "" then false
    else if normalized == "*" || normalized == host then true
    else if StartsWith(normalized, "*.") then EndsWith(host, normalized[1..])
    else StartsWith(normalized, ".") && EndsWith(host, normalized)
  }

  predicate MatchesSome(hostname: string, patterns: seq<string>) {
    exists i :: 0 <= i < |patterns| && MatchesHost(hostname, patterns[i])
  }

  predicate IsHttp(url: Url) {
    url.protocol == "http:" || url.protocol == "https:"
  }

  predicate ValidPort(url: Url) {
    || url.port == ""
    || (url.protocol == "http:" && url.port == "80")
    || (url.protocol == "https:" && url.port == "443")
  }

  /** The first check that blocks a URL, in the order of the loop. */
  function Blocked(policy: Policy, url: Url): Option<Error> {
    if !IsHttp(url) then Some(ProtocolBlocked)
    else if url.username != "" || url.password != "" then Some(CredentialsBlocked)
    else if !ValidPort(url) then Some(PortBlocked)
    else if MatchesSome(url.hostname, policy.deniedHosts) then Some(HostBlocked)
    else if policy.allowedHosts != [] && !MatchesSome(url.hostname, policy.allowedHosts) then Some(HostBlocked)
    else None
  }

  function Failed(failure: Failure): Error {
    if failure.TimedOut? then InspectTimeout else InspectFailed
  }

  datatype Resolved = Address(address: string) | Unresolved(error: Error)

  /** `resolvePublicAddress`: one address, every candidate being public. */
  function Resolve(w: World, step: nat, hostname: string): Resolved {
    if w.isAddress(hostname) then
      if w.public(hostname) then Address(hostname) else Unresolved(AddressBlocked)
    else
      match w.lookup(step, hostname)
      case LookupFailed(f) => Unresolved(Failed(f))
      case Addresses(found) =>
        if found == [] || exists i :: 0 <= i < |found| && !w.public(found[i]) then Unresolved(AddressBlocked)
        else Address(found[0])
  }

  predicate IsRedirect(status: int) {
    300 <= status < 400
  }

  /** A blank `location` counts as absent. */
  predicate HasLocation(r: Response)
    requires r.Response?
  {
    r.location.Some? && r.location.value != ""
  }

  /** What a fetched response leads to: another URL, or the end. */
  datatype Turn = Goto(url: Url) | Stop(result: Result)

  function React(w: World, maxRedirects: nat, step: nat, url: Url, response: Response): Turn {
    match response
    case NoResponse(f) => Stop(Err(Failed(f)))
    case Response(status, location) =>
      if !IsRedirect(status) then Stop(Ok(url.text, status))
      else if !HasLocation(response) then Stop(Err(RedirectInvalid))
      else if step == maxRedirects then Stop(Err(RedirectLimit))
      else
        match w.parse(location.value, url)
        case None => Stop(Err(InspectFailed))
        case Some(next) => if IsHttp(next) then Goto(next) else Stop(Err(RedirectBlocked))
  }

  /** One turn of the loop: either it ends, or it goes on at another URL; and the request
      it sent, if it got so far. */
  datatype Round = Done(result: Result, sent: seq<Request>) | Again(url: Url, request: Request)

  function Turnaround(w: World, policy: Policy, maxRedirects: nat, step: nat, url: Url, visited: set<string>): Round {
    var blocked := Blocked(policy, url);
    if blocked.Some? then Done(Err(blocked.value), [])
    else if url.text in visited then Done(Err(RedirectLoop), [])
    else
      match Resolve(w, step, url.hostname)
      case Unresolved(e) => Done(Err(e), [])
      case Address(a) =>
        match React(w, maxRedirects, step, url, w.fetch(step, url, a))
        case Stop(result) => Done(result, [Request(url, a)])
        case Goto(next) => Again(next, Request(url, a))
  }

  /** Following the chain of redirects, one URL at a time: the result, and all requests
      sent, those in `sent` first. */
  function Follow(w: World, policy: Policy, maxRedirects: nat, step: nat, url: Url, visited: set<string>, sent: seq<Request>): (Result, seq<Request>)
    requires step <= maxRedirects
    decreases maxRedirects - step
  {
    match Turnaround(w, policy, maxRedirects, step, url, visited)
    case Done(result, last) => (result, sent + last)
    case Again(next, request) =>
      Follow(w, policy, maxRedirects, step + 1, next, visited + {url.text}, sent + [request])
  }

  /** One pass through the body of the loop, with its early returns. */
  method LoopBody(w: World, policy: Policy, maxRedirects: nat, redirects: nat, url: Url, visited: set<string>)
    returns (round: Round)
    ensures round == Turnaround(w, policy, maxRedirects, redirects, url, visited)
  {
    if !IsHttp(url) { return Done(Err(ProtocolBlocked), []); }
    if url.username != "" || url.password != "" { return Done(Err(CredentialsBlocked), []); }
    if !ValidPort(url) { return Done(Err(PortBlocked), []); }
    if MatchesSome(url.hostname, policy.deniedHosts) { return Done(Err(HostBlocked), []); }
    if policy.allowedHosts != [] && !MatchesSome(url.hostname, policy.allowedHosts) {
      return Done(Err(HostBlocked), []);
    }
    if url.text in visited { return Done(Err(RedirectLoop), []); }
    var resolved := Resolve(w, redirects, url.hostname);
    if resolved.Unresolved? { return Done(Err(resolved.error), []); }
    var request := Request(url, resolved.address);
    var response := w.fetch(redirects, url, resolved.address);
    if response.NoResponse? { return Done(Err(Failed(response.failure)), [request]); }
    if !IsRedirect(response.status) { return Done(Ok(url.text, response.status), [request]); }
    if !HasLocation(response) { return Done(Err(RedirectInvalid), [request]); }
    if redirects == maxRedirects { return Done(Err(RedirectLimit), [request]); }
    var next := w.parse(response.location.value, url);
    if next.None? { return Done(Err(InspectFailed), [request]); }
    if !IsHttp(next.value) { return Done(Err(RedirectBlocked), [request]); }
    return Again(next.value, request);
  }

  /** The loop. Its last line, the return after the loop, is never reached. */
  method InspectPublicUrl(w: World, policy: Policy, maxRedirects: nat, initialUrl: Url)
    returns (result: Result, requests: seq<Request>)
    ensures (result, requests) == Follow(w, policy, maxRedirects, 0, initialUrl, {}, [])
    ensures |requests| <= maxRedirects + 1 && Admissible(w, policy, requests)
    ensures forall i :: 0 <= i < |requests| ==> w.public(requests[i].address)
  {
    RunIsSafe(w, policy, maxRedirects, initialUrl);
    var url, visited: set<string> := initialUrl, {};
    var redirects := 0;
    requests := [];
    while redirects <= maxRedirects
      invariant redirects <= maxRedirects
      invariant Follow(w, policy, maxRedirects, 0, initialUrl, {}, [])
             == Follow(w, policy, maxRedirects, redirects, url, visited, requests)
    {
      var round := LoopBody(w, policy, maxRedirects, redirects, url, visited);
      if round.Done? {
        return round.result, requests + round.sent;
      }
      visited := visited + {url.text};
      requests := requests + [round.request];
      url := round.url;
      redirects := redirects + 1;
    }
    assert false;
  }

  // ----- what the chain looks like

  /** The requests of a run: an attempt of step `i` is allowed, resolved to a public
      address, and repeats no earlier URL. */
  ghost predicate Admissible(w: World, policy: Policy, requests: seq<Request>) {
    && (forall i :: 0 <= i < |requests| ==>
          && Blocked(policy, requests[i].url) == None
          && Resolve(w, i, requests[i].url.hostname) == Address(requests[i].address))
    && (forall i, j :: 0 <= i < j < |requests| ==> requests[i].url.text != requests[j].url.text)
  }

  /** Each request but the first goes where the response to the one before it points. */
  ghost predicate Chained(w: World, maxRedirects: nat, requests: seq<Request>) {
    forall i :: 1 <= i < |requests| ==>
      React(w, maxRedirects, i - 1, requests[i - 1].url, w.fetch(i - 1, requests[i - 1].url, requests[i - 1].address))
        == Goto(requests[i].url)
  }

  /** A run up to some step: the requests sent so far, and the URL to look at next. */
  ghost predicate Reaches(w: World, policy: Policy, maxRedirects: nat, start: Url, requests: seq<Request>, url: Url) {
    && Admissible(w, policy, requests)
    && Chained(w, maxRedirects, requests)
    && (if requests == [] then url == start
        else
          var k := |requests| - 1;
          requests[0].url == start
          && React(w, maxRedirects, k, requests[k].url, w.fetch(k, requests[k].url, requests[k].address)) == Goto(url))
  }

  function Texts(requests: seq<Request>): set<string> {
    set i | 0 <= i < |requests| :: requests[i].url.text
  }

  lemma TextsGrow(requests: seq<Request>, request: Request)
    ensures Texts(requests + [request]) == Texts(requests) + {request.url.text}
  {
    var more := requests + [request];
    assert forall i :: 0 <= i < |requests| ==> more[i] == requests[i];
    forall t | t in Texts(requests) + {request.url.text} ensures t in Texts(more) {
      if t == request.url.text {
        assert more[|requests|].url.text == t;
      } else {
        var i :| 0 <= i < |requests| && requests[i].url.text == t;
        assert more[i].url.text == t;
      }
    }
  }

  lemma AdmissibleNext(w: World, policy: Policy, requests: seq<Request>, request: Request)
    requires Admissible(w, policy, requests)
    requires Blocked(policy, request.url) == None && request.url.text !in Texts(requests)
    requires Resolve(w, |requests|, request.url.hostname) == Address(request.address)
    ensures Admissible(w, policy, requests + [request])
  {
    var more := requests + [request];
    assert forall i :: 0 <= i < |requests| ==> more[i] == requests[i] && requests[i].url.text in Texts(requests);
  }

  /** How a run ends: in the turn at the URL reached by the requests before it. */
  ghost predicate Outcome(w: World, policy: Policy, maxRedirects: nat, start: Url, before: seq<Request>, url: Url, result: Result, requests: seq<Request>) {
    && |before| <= maxRedirects
    && Reaches(w, policy, maxRedirects, start, before, url)
    && |before| <= |requests|
    && requests[..|before|] == before
    && Turnaround(w, policy, maxRedirects, |before|, url, Texts(before)) == Done(result, requests[|before|..])
  }

  lemma EndsHere(w: World, policy: Policy, maxRedirects: nat, start: Url, sent: seq<Request>, at: Url, result: Result, last: seq<Request>)
    requires |sent| <= maxRedirects && Reaches(w, policy, maxRedirects, start, sent, at)
    requires Turnaround(w, policy, maxRedirects, |sent|, at, Texts(sent)) == Done(result, last)
    ensures Outcome(w, policy, maxRedirects, start, sent, at, result, sent + last)
  {
    assert (sent + last)[..|sent|] == sent && (sent + last)[|sent|..] == last;
  }

  /** What a turn that goes on has found. */
  lemma TurnGoesOn(w: World, policy: Policy, maxRedirects: nat, step: nat, url: Url, visited: set<string>, next: Url, request: Request)
    requires Turnaround(w, policy, maxRedirects, step, url, visited) == Again(next, request)
    ensures step != maxRedirects && request.url == url && Blocked(policy, url) == None && url.text !in visited
    ensures Resolve(w, step, url.hostname) == Address(request.address)
    ensures React(w, maxRedirects, step, url, w.fetch(step, url, request.address)) == Goto(next)
  {
  }

  lemma ReachesNext(w: World, policy: Policy, maxRedirects: nat, start: Url, sent: seq<Request>, next: Url, request: Request)
    requires Reaches(w, policy, maxRedirects, start, sent, request.url) && Admissible(w, policy, sent + [request])
    requires React(w, maxRedirects, |sent|, request.url, w.fetch(|sent|, request.url, request.address)) == Goto(next)
    ensures Reaches(w, policy, maxRedirects, start, sent + [request], next)
  {
    var more := sent + [request];
    assert forall i :: 0 <= i < |sent| ==> more[i] == sent[i];
  }

  lemma GoesOn(w: World, policy: Policy, maxRedirects: nat, start: Url, sent: seq<Request>, at: Url, next: Url, request: Request)
    requires |sent| <= maxRedirects && Reaches(w, policy, maxRedirects, start, sent, at)
    requires Turnaround(w, policy, maxRedirects, |sent|, at, Texts(sent)) == Again(next, request)
    ensures |sent| < maxRedirects && request.url == at
    ensures Reaches(w, policy, maxRedirects, start, sent + [request], next)
  {
    TurnGoesOn(w, policy, maxRedirects, |sent|, at, Texts(sent), next, request);
    AdmissibleNext(w, policy, sent, request);
    ReachesNext(w, policy, maxRedirects, start, sent, next, request);
  }

  lemma {:induction false} FollowEnds(w: World, policy: Policy, maxRedirects: nat, start: Url, sent: seq<Request>, at: Url)
    returns (before: seq<Request>, url: Url)
    requires |sent| <= maxRedirects && Reaches(w, policy, maxRedirects, start, sent, at)
    ensures var (result, requests) := Follow(w, policy, maxRedirects, |sent|, at, Texts(sent), sent);
      Outcome(w, policy, maxRedirects, start, before, url, result, requests)
    decreases maxRedirects - |sent|
  {
    match Turnaround(w, policy, maxRedirects, |sent|, at, Texts(sent))
    case Done(result, last) =>
      before, url := sent, at;
      EndsHere(w, policy, maxRedirects, start, sent, at, result, last);
    case Again(next, request) =>
      GoesOn(w, policy, maxRedirects, start, sent, at, next, request);
      TextsGrow(sent, request);
      before, url := FollowEnds(w, policy, maxRedirects, start, sent + [request], next);
  }

  lemma {:induction false} FollowPasses(w: World, policy: Policy, maxRedirects: nat, start: Url, before: seq<Request>, url: Url)
    requires |before| <= maxRedirects && Reaches(w, policy, maxRedirects, start, before, url)
    ensures Follow(w, policy, maxRedirects, 0, start, {}, [])
         == Follow(w, policy, maxRedirects, |before|, url, Texts(before), before)
    decreases |before|
  {
    if before == [] {
      assert Texts([]) == {};
    } else {
      var k := |before| - 1;
      FollowPasses(w, policy, maxRedirects, start, before[..k], before[k].url);
      TextsGrow(before[..k], before[k]);
      assert before[..k] + [before[k]] == before;
    }
  }

  /** The loop and the chains define each other: its result and its requests are exactly
      those of the one chain of allowed, public, pairwise different URLs that starts at
      the given URL, follows the responses, and stops. */
  lemma FollowIffOutcome(w: World, policy: Policy, maxRedirects: nat, start: Url, result: Result, requests: seq<Request>)
    ensures Follow(w, policy, maxRedirects, 0, start, {}, []) == (result, requests)
       <==> exists before, url :: Outcome(w, policy, maxRedirects, start, before, url, result, requests)
  {
    if Follow(w, policy, maxRedirects, 0, start, {}, []) == (result, requests) {
      assert Texts([]) == {};
      var before, url := FollowEnds(w, policy, maxRedirects, start, [], start);
    }
    forall before, url | Outcome(w, policy, maxRedirects, start, before, url, result, requests)
      ensures Follow(w, policy, maxRedirects, 0, start, {}, []) == (result, requests)
    {
      FollowPasses(w, policy, maxRedirects, start, before, url);
      assert before + requests[|before|..] == requests;
    }
  }

  /** At most `maxRedirects + 1` requests, each to an allowed URL at a public address, no URL
      twice, each where the last response led. */
  ghost predicate Safe(w: World, policy: Policy, maxRedirects: nat, start: Url, requests: seq<Request>) {
    && |requests| <= maxRedirects + 1
    && Admissible(w, policy, requests) && Chained(w, maxRedirects, requests)
    && (forall i :: 0 <= i < |requests| ==> w.public(requests[i].address))
    && (requests != [] ==> requests[0].url == start)
  }

  /** The request of the last turn, if it sends one, adds to the requests before it. */
  lemma LastIsSafe(w: World, policy: Policy, maxRedirects: nat, before: seq<Request>, url: Url, result: Result, last: seq<Request>)
    requires Admissible(w, policy, before) && last != []
    requires Turnaround(w, policy, maxRedirects, |before|, url, Texts(before)) == Done(result, last)
    ensures last == [last[0]] && last[0].url == url && Admissible(w, policy, before + [last[0]]) && w.public(last[0].address)
  {
    AdmissibleNext(w, policy, before, last[0]);
  }

  lemma ReachedIsSafe(w: World, policy: Policy, maxRedirects: nat, start: Url, before: seq<Request>, url: Url)
    requires |before| <= maxRedirects && Reaches(w, policy, maxRedirects, start, before, url)
    ensures Safe(w, policy, maxRedirects, start, before)
  {
  }

  lemma OneMoreIsSafe(w: World, policy: Policy, maxRedirects: nat, start: Url, before: seq<Request>, url: Url, request: Request)
    requires |before| <= maxRedirects && Reaches(w, policy, maxRedirects, start, before, url)
    requires request.url == url && Admissible(w, policy, before + [request]) && w.public(request.address)
    ensures Safe(w, policy, maxRedirects, start, before + [request])
  {
    ReachedIsSafe(w, policy, maxRedirects, start, before, url);
    var more := before + [request];
    assert forall i :: 0 <= i < |before| ==> more[i] == before[i];
  }

  /** What the requests of every run keep. */
  lemma RequestsAreSafe(w: World, policy: Policy, maxRedirects: nat, start: Url, before: seq<Request>, url: Url, result: Result, requests: seq<Request>)
    requires Outcome(w, policy, maxRedirects, start, before, url, result, requests)
    ensures Safe(w, policy, maxRedirects, start, requests)
  {
    var last := requests[|before|..];
    if last == [] {
      assert requests == before;
      ReachedIsSafe(w, policy, maxRedirects, start, before, url);
    } else {
      LastIsSafe(w, policy, maxRedirects, before, url, result, last);
      assert requests == before + [last[0]];
      OneMoreIsSafe(w, policy, maxRedirects, start, before, url, last[0]);
    }
  }

  /** The same of the result of every run. */
  lemma RunIsSafe(w: World, policy: Policy, maxRedirects: nat, start: Url)
    ensures var (result, requests) := Follow(w, policy, maxRedirects, 0, start, {}, []);
      Safe(w, policy, maxRedirects, start, requests)
  {
    var (result, requests) := Follow(w, policy, maxRedirects, 0, start, {}, []);
    assert Texts([]) == {};
    var before, url := FollowEnds(w, policy, maxRedirects, start, [], start);
    RequestsAreSafe(w, policy, maxRedirects, start, before, url, result, requests);
  }

  /** With the classifier as it is, no run sends a request to an address in a special
      block, whatever names resolve to and wherever responses lead: every address is the text
      of one outside them. */
  lemma NoSpecialAddressReached(w: World, policy: Policy, maxRedirects: nat, start: Url, other: AddressText.Reading)
    requires forall a :: w.public(a) == PublicAddress.IsPublic(AddressGrammar.IsIP, a, other)
    ensures var (result, requests) := Follow(w, policy, maxRedirects, 0, start, {}, []);
      forall i :: 0 <= i < |requests| ==> AddressGrammar.StandsOutside(requests[i].address, other)
  {
    RunIsSafe(w, policy, maxRedirects, start);
    var (result, requests) := Follow(w, policy, maxRedirects, 0, start, {}, []);
    forall i | 0 <= i < |requests| ensures AddressGrammar.StandsOutside(requests[i].address, other) {
      AddressGrammar.PublicIffStandsOutside(requests[i].address, other);
    }
  }

  /** The URL that ends a run well: the last of a chain, answered and not redirected. */
  ghost predicate Succeeds(w: World, policy: Policy, maxRedirects: nat, start: Url, requests: seq<Request>, finalUrl: string, status: int) {
    && 1 <= |requests| <= maxRedirects + 1
    && Admissible(w, policy, requests)
    && Chained(w, maxRedirects, requests)
    && requests[0].url == start
    && (var k := |requests| - 1;
        var response := w.fetch(k, requests[k].url, requests[k].address);
        finalUrl == requests[k].url.text && response.Response? && response.status == status && !IsRedirect(status))
  }

  lemma OutcomeSucceeds(w: World, policy: Policy, maxRedirects: nat, start: Url, before: seq<Request>, url: Url, requests: seq<Request>, finalUrl: string, status: int)
    requires Outcome(w, policy, maxRedirects, start, before, url, Ok(finalUrl, status), requests)
    ensures Succeeds(w, policy, maxRedirects, start, requests, finalUrl, status)
  {
    RequestsAreSafe(w, policy, maxRedirects, start, before, url, Ok(finalUrl, status), requests);
    var last := requests[|before|..];
    assert last == [last[0]] && requests[|before|] == last[0];
  }

  /** A run succeeds exactly at the end of a chain of redirects, and reports its last URL. */
  lemma OkIffSucceeds(w: World, policy: Policy, maxRedirects: nat, start: Url, finalUrl: string, status: int, requests: seq<Request>)
    ensures Follow(w, policy, maxRedirects, 0, start, {}, []) == (Ok(finalUrl, status), requests)
       <==> Succeeds(w, policy, maxRedirects, start, requests, finalUrl, status)
  {
    FollowIffOutcome(w, policy, maxRedirects, start, Ok(finalUrl, status), requests);
    forall before, url | Outcome(w, policy, maxRedirects, start, before, url, Ok(finalUrl, status), requests)
      ensures Succeeds(w, policy, maxRedirects, start, requests, finalUrl, status)
    {
      OutcomeSucceeds(w, policy, maxRedirects, start, before, url, requests, finalUrl, status);
    }
    if Succeeds(w, policy, maxRedirects, start, requests, finalUrl, status) {
      SuccessEnds(w, policy, maxRedirects, start, requests, finalUrl, status);
    }
  }

  /** The requests before the last reach its URL. */
  lemma SuccessReaches(w: World, policy: Policy, maxRedirects: nat, start: Url, requests: seq<Request>, front: seq<Request>, k: nat)
    requires |requests| == k + 1 && front == requests[..k] && requests[0].url == start
    requires Admissible(w, policy, requests) && Chained(w, maxRedirects, requests)
    ensures Reaches(w, policy, maxRedirects, start, front, requests[k].url) && requests[k].url.text !in Texts(front)
  {
    assert forall i :: 0 <= i < k ==> front[i] == requests[i];
    if k > 0 {
      assert React(w, maxRedirects, k - 1, requests[k - 1].url, w.fetch(k - 1, requests[k - 1].url, requests[k - 1].address))
        == Goto(requests[k].url);
    }
  }

  /** The turn at an allowed URL with a public address, not requested before, that is answered. */
  lemma AnsweredTurn(w: World, policy: Policy, maxRedirects: nat, k: nat, request: Request, visited: set<string>, status: int)
    requires k <= maxRedirects && request.url.text !in visited && Blocked(policy, request.url) == None
    requires Resolve(w, k, request.url.hostname) == Address(request.address)
    requires var response := w.fetch(k, request.url, request.address);
      response.Response? && response.status == status && !IsRedirect(status)
    ensures Turnaround(w, policy, maxRedirects, k, request.url, visited) == Done(Ok(request.url.text, status), [request])
  {
  }

  lemma SuccessEnds(w: World, policy: Policy, maxRedirects: nat, start: Url, requests: seq<Request>, finalUrl: string, status: int)
    requires Succeeds(w, policy, maxRedirects, start, requests, finalUrl, status)
    ensures Outcome(w, policy, maxRedirects, start, requests[..|requests| - 1], requests[|requests| - 1].url, Ok(finalUrl, status), requests)
  {
    var k := |requests| - 1;
    var front, last := requests[..k], requests[k];
    SuccessReaches(w, policy, maxRedirects, start, requests, front, k);
    AnsweredTurn(w, policy, maxRedirects, k, last, Texts(front), status);
    assert requests[k..] == [last];
  }

  /** A redirect that names a location. */
  predicate Redirection(response: Response) {
    response.Response? && IsRedirect(response.status) && HasLocation(response)
  }

  /** The response to request `k` is one. */
  predicate Redirected(w: World, requests: seq<Request>, k: nat)
    requires k < |requests|
  {
    Redirection(w.fetch(k, requests[k].url, requests[k].address))
  }

  /** The last turn reports the limit exactly if it is at the last step and its request is answered
      by a redirect with a location. */
  lemma TurnAtLimit(w: World, policy: Policy, maxRedirects: nat, step: nat, url: Url, visited: set<string>, result: Result, last: seq<Request>)
    requires Turnaround(w, policy, maxRedirects, step, url, visited) == Done(result, last)
    ensures result == Err(RedirectLimit)
       <==> step == maxRedirects && last != [] && Redirection(w.fetch(step, last[0].url, last[0].address))
    ensures |last| <= 1
  {
  }

  /** The limit is reported exactly if `maxRedirects + 1` requests were sent and the last was
      answered by a redirect that names a location. */
  lemma LimitIff(w: World, policy: Policy, maxRedirects: nat, start: Url)
    ensures var (result, requests) := Follow(w, policy, maxRedirects, 0, start, {}, []);
      result == Err(RedirectLimit) <==> |requests| == maxRedirects + 1 && Redirected(w, requests, maxRedirects)
  {
    var (result, requests) := Follow(w, policy, maxRedirects, 0, start, {}, []);
    assert Texts([]) == {};
    var before, url := FollowEnds(w, policy, maxRedirects, start, [], start);
    LimitOfOutcome(w, policy, maxRedirects, start, before, url, result, requests);
  }

  lemma LimitOfOutcome(w: World, policy: Policy, maxRedirects: nat, start: Url, before: seq<Request>, url: Url, result: Result, requests: seq<Request>)
    requires Outcome(w, policy, maxRedirects, start, before, url, result, requests)
    ensures result == Err(RedirectLimit) <==> |requests| == maxRedirects + 1 && Redirected(w, requests, maxRedirects)
  {
    var last := requests[|before|..];
    TurnAtLimit(w, policy, maxRedirects, |before|, url, Texts(before), result, last);
    if last != [] { assert last[0] == requests[|before|]; }
  }

  /** The run has led to an allowed URL that it already requested. */
  ghost predicate Returns(w: World, policy: Policy, maxRedirects: nat, start: Url, requests: seq<Request>, url: Url) {
    && |requests| <= maxRedirects && Reaches(w, policy, maxRedirects, start, requests, url)
    && Blocked(policy, url) == None && url.text in Texts(requests)
  }

  lemma TurnAtLoop(w: World, policy: Policy, maxRedirects: nat, step: nat, url: Url, visited: set<string>)
    ensures var turn := Turnaround(w, policy, maxRedirects, step, url, visited);
      turn.Done? && turn.result == Err(RedirectLoop) <==> Blocked(policy, url) == None && url.text in visited
    ensures var turn := Turnaround(w, policy, maxRedirects, step, url, visited);
      turn.Done? && turn.result == Err(RedirectLoop) ==> turn.sent == []
  {
  }

  /** A loop is reported exactly if the requests sent lead to a URL that is one of theirs. */
  lemma LoopIff(w: World, policy: Policy, maxRedirects: nat, start: Url)
    ensures var (result, requests) := Follow(w, policy, maxRedirects, 0, start, {}, []);
      result == Err(RedirectLoop) <==> exists url :: Returns(w, policy, maxRedirects, start, requests, url)
  {
    var (result, requests) := Follow(w, policy, maxRedirects, 0, start, {}, []);
    assert Texts([]) == {};
    var before, at := FollowEnds(w, policy, maxRedirects, start, [], start);
    TurnAtLoop(w, policy, maxRedirects, |before|, at, Texts(before));
    if result == Err(RedirectLoop) {
      assert requests == before + requests[|before|..] == before;
      assert Returns(w, policy, maxRedirects, start, requests, at);
    }
    if url :| Returns(w, policy, maxRedirects, start, requests, url) {
      LoopOfReturn(w, policy, maxRedirects, start, requests, url);
    }
  }

  lemma LoopOfReturn(w: World, policy: Policy, maxRedirects: nat, start: Url, requests: seq<Request>, url: Url)
    requires Returns(w, policy, maxRedirects, start, requests, url)
    ensures Follow(w, policy, maxRedirects, 0, start, {}, []).0 == Err(RedirectLoop)
  {
    TurnAtLoop(w, policy, maxRedirects, |requests|, url, Texts(requests));
    assert requests[..|requests|] == requests && requests[|requests|..] == [];
    assert Outcome(w, policy, maxRedirects, start, requests, url, Err(RedirectLoop), requests);
    FollowIffOutcome(w, policy, maxRedirects, start, Err(RedirectLoop), requests);
  }
}
