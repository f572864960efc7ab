/**
 What `inspectPublicUrl` decides, said of the fields of URLs, policies, lookups and
 responses (scripts/public-url-inspect.ts, lines 16-30, 100-103, 126-136 and 200-330).
 */
module RedirectRules {
  import opened Text
  import opened Characters
  import opened Redirects

  // ----- hosts

  /** A pattern, trimmed and in small letters, stands for a host: it is `*`, or the host, or a
      dot and what follows it, perhaps after a `*`, where the host ends so. */
  ghost predicate Covers(pattern: string, hostname: string) {
    var p, host := Lower(Trim(pattern)), Lower(hostname);
    p == "*" || (p != "" && p == host) || CoversEnd(p, host)
  }

  ghost predicate CoversEnd(p: string, host: string) {
    exists x, rest :: (p == "*." + rest || p == "." + rest) && host == x + "." + rest
  }

  predicate MatchesEnd(p: string, host: string) {
    (StartsWith(p, "*.") && EndsWith(host, p[1..])) || (StartsWith(p, ".") && EndsWith(host, p))
  }

  lemma StarredRest(p: string, rest: string)
    requires p == "*." + rest
    ensures p[1..] == "." + rest && StartsWith(p, "*.") && !StartsWith(p, ".")
  {
    assert p[0] == '*' && p[..2] == "*.";
  }

  lemma DottedRest(p: string, rest: string)
    requires p == "." + rest
    ensures StartsWith(p, ".") && !StartsWith(p, "*.")
  {
    assert p[0] == '.' && p[..1] == ".";
  }

  lemma EndsSo(host: string, x: string, rest: string)
    requires host == x + "." + rest
    ensures EndsWith(host, "." + rest)
  {
    assert host == x + ("." + rest);
    SuffixIff(host, "." + rest);
  }

  lemma CoveredMatches(p: string, host: string, x: string, rest: string)
    requires (p == "*." + rest || p == "." + rest) && host == x + "." + rest
    ensures MatchesEnd(p, host)
  {
    EndsSo(host, x, rest);
    if p == "*." + rest { StarredRest(p, rest); } else { DottedRest(p, rest); }
  }

  lemma MatchedCovers(p: string, host: string, dotted: string, rest: string)
    requires EndsWith(host, dotted) && dotted == "." + rest && (p == "*." + rest || p == dotted)
    ensures CoversEnd(p, host)
  {
    SuffixIff(host, dotted);
    var x :| host == x + dotted;
    assert host == x + "." + rest;
  }

  lemma MatchesEndIff(p: string, host: string)
    ensures MatchesEnd(p, host) <==> CoversEnd(p, host)
  {
    if x, rest :| (p == "*." + rest || p == "." + rest) && host == x + "." + rest { CoveredMatches(p, host, x, rest); }
    if StartsWith(p, "*.") && EndsWith(host, p[1..]) {
      assert p == "*." + p[2..] && p[1..] == "." + p[2..];
      MatchedCovers(p, host, p[1..], p[2..]);
    }
    if StartsWith(p, ".") && EndsWith(host, p) {
      assert p == "." + p[1..];
      MatchedCovers(p, host, p, p[1..]);
    }
  }

  lemma CoversIff(hostname: string, pattern: string)
    ensures MatchesHost(hostname, pattern) <==> Covers(pattern, hostname)
  {
    MatchesEndIff(Lower(Trim(pattern)), Lower(hostname));
  }

  // ----- what may be requested

  ghost predicate Denied(policy: Policy, hostname: string) {
    exists k :: 0 <= k < |policy.deniedHosts| && Covers(policy.deniedHosts[k], hostname)
  }

  ghost predicate Allowed(policy: Policy, hostname: string) {
    policy.allowedHosts == [] || exists k :: 0 <= k < |policy.allowedHosts| && Covers(policy.allowedHosts[k], hostname)
  }

  predicate Web(url: Url) {
    url.protocol == "http:" || url.protocol == "https:"
  }

  predicate Anonymous(url: Url) {
    url.username == "" && url.password == ""
  }

  predicate StandardPort(url: Url) {
    url.port == "" || (url.protocol == "http:" && url.port == "80") || (url.protocol == "https:" && url.port == "443")
  }

  ghost predicate Passable(policy: Policy, url: Url) {
    Web(url) && Anonymous(url) && StandardPort(url) && !Denied(policy, url.hostname) && Allowed(policy, url.hostname)
  }

  /** The address is the host itself, or the first of those its name is looked up to; and all are public. */
  predicate Reached(w: World, step: nat, hostname: string, address: string) {
    if w.isAddress(hostname) then address == hostname && w.public(hostname)
    else
      var found := w.lookup(step, hostname);
      && found.Addresses? && found.addresses != [] && address == found.addresses[0]
      && forall i :: 0 <= i < |found.addresses| ==> w.public(found.addresses[i])
  }

  /** The host is no public address, or its name is looked up to none, or to one that is not public. */
  predicate Unreachable(w: World, step: nat, hostname: string) {
    if w.isAddress(hostname) then !w.public(hostname)
    else
      var found := w.lookup(step, hostname);
      && found.Addresses?
      && (found.addresses == [] || exists i :: 0 <= i < |found.addresses| && !w.public(found.addresses[i]))
  }

  predicate Unknown(w: World, step: nat, hostname: string, failure: Failure) {
    !w.isAddress(hostname) && w.lookup(step, hostname) == LookupFailed(failure)
  }

  function Answer(w: World, requests: seq<Request>, k: nat): Response
    requires k < |requests|
  {
    w.fetch(k, requests[k].url, requests[k].address)
  }

  /** A redirect that names where to. */
  predicate Points(response: Response) {
    response.Response? && 300 <= response.status <= 399 && response.location.Some? && response.location.value != ""
  }

  /** The response to request `k` leads to the URL. */
  predicate LeadsTo(w: World, maxRedirects: nat, requests: seq<Request>, k: nat, url: Url)
    requires k < |requests|
  {
    var response := Answer(w, requests, k);
    Points(response) && k < maxRedirects && w.parse(response.location.value, requests[k].url) == Some(url) && Web(url)
  }

  /** The URL to look at after the requests. */
  predicate Arrives(w: World, maxRedirects: nat, start: Url, requests: seq<Request>, url: Url) {
    if requests == [] then url == start else LeadsTo(w, maxRedirects, requests, |requests| - 1, url)
  }

  /** Every request is for a URL that may be requested, at an address of its host. */
  ghost predicate EachMay(w: World, policy: Policy, requests: seq<Request>) {
    forall i :: 0 <= i < |requests| ==>
      Passable(policy, requests[i].url) && Reached(w, i, requests[i].url.hostname, requests[i].address)
  }

  /** Request `i` is where the response to the one before it leads. */
  predicate Led(w: World, maxRedirects: nat, requests: seq<Request>, i: nat)
    requires 1 <= i < |requests|
  {
    LeadsTo(w, maxRedirects, requests, i - 1, requests[i].url)
  }

  /** Every request but the first is. */
  predicate EachLed(w: World, maxRedirects: nat, requests: seq<Request>) {
    forall i :: 1 <= i < |requests| ==> Led(w, maxRedirects, requests, i)
  }

  predicate NoneTwice(requests: seq<Request>) {
    forall i, j :: 0 <= i < j < |requests| ==> requests[i].url.text != requests[j].url.text
  }

  ghost predicate Lawful(w: World, policy: Policy, maxRedirects: nat, start: Url, requests: seq<Request>) {
    && |requests| <= maxRedirects + 1
    && EachMay(w, policy, requests) && EachLed(w, maxRedirects, requests) && NoneTwice(requests)
    && (requests != [] ==> requests[0].url == start)
  }

  predicate Repeated(requests: seq<Request>, url: Url) {
    exists i :: 0 <= i < |requests| && requests[i].url.text == url.text
  }

  /** Why a URL is not requested after these requests. */
  ghost predicate Fails(w: World, policy: Policy, requests: seq<Request>, url: Url, error: Error) {
    match error
    case ProtocolBlocked => !Web(url)
    case CredentialsBlocked => Web(url) && !Anonymous(url)
    case PortBlocked => Web(url) && Anonymous(url) && !StandardPort(url)
    case HostBlocked =>
      && Web(url) && Anonymous(url) && StandardPort(url)
      && (Denied(policy, url.hostname) || !Allowed(policy, url.hostname))
    case RedirectLoop => Passable(policy, url) && Repeated(requests, url)
    case AddressBlocked => Passable(policy, url) && !Repeated(requests, url) && Unreachable(w, |requests|, url.hostname)
    case InspectTimeout => Passable(policy, url) && !Repeated(requests, url) && Unknown(w, |requests|, url.hostname, TimedOut)
    case InspectFailed => Passable(policy, url) && !Repeated(requests, url) && Unknown(w, |requests|, url.hostname, Broken)
    case _ => false
  }

  /** How the response to the last request ends a run. */
  predicate Closes(w: World, maxRedirects: nat, requests: seq<Request>, result: Result)
    requires requests != []
  {
    var k := |requests| - 1;
    var response := Answer(w, requests, k);
    match result
    case Ok(finalUrl, status) =>
      response.Response? && response.status == status && !(300 <= status <= 399) && finalUrl == requests[k].url.text
    case Err(RedirectInvalid) =>
      response.Response? && 300 <= response.status <= 399 && (response.location.None? || response.location.value == "")
    case Err(RedirectLimit) => Points(response) && k == maxRedirects
    case Err(RedirectBlocked) =>
      && Points(response) && k < maxRedirects
      && w.parse(response.location.value, requests[k].url).Some? && !Web(w.parse(response.location.value, requests[k].url).value)
    case Err(InspectTimeout) => response == NoResponse(TimedOut)
    case Err(InspectFailed) =>
      || response == NoResponse(Broken)
      || (Points(response) && k < maxRedirects && w.parse(response.location.value, requests[k].url).None?)
    case _ => false
  }

  /** How a run ends after these requests: at a URL that is not requested, or with a response. */
  ghost predicate Ends(w: World, policy: Policy, maxRedirects: nat, start: Url, requests: seq<Request>, result: Result) {
    || (result.Err? && exists url :: Arrives(w, maxRedirects, start, requests, url) && Fails(w, policy, requests, url, result.error))
    || (requests != [] && Closes(w, maxRedirects, requests, result))
  }

  // ----- the functions of the loop

  lemma MatchesSomeIff(hostname: string, patterns: seq<string>)
    ensures MatchesSome(hostname, patterns) <==> exists k :: 0 <= k < |patterns| && Covers(patterns[k], hostname)
  {
    forall k | 0 <= k < |patterns| ensures MatchesHost(hostname, patterns[k]) <==> Covers(patterns[k], hostname) {
      CoversIff(hostname, patterns[k]);
    }
  }

  lemma BlockedIs(policy: Policy, url: Url)
    ensures Blocked(policy, url) ==
      if !Web(url) then Some(ProtocolBlocked)
      else if !Anonymous(url) then Some(CredentialsBlocked)
      else if !StandardPort(url) then Some(PortBlocked)
      else if Denied(policy, url.hostname) || !Allowed(policy, url.hostname) then Some(HostBlocked)
      else None
  {
    MatchesSomeIff(url.hostname, policy.deniedHosts);
    MatchesSomeIff(url.hostname, policy.allowedHosts);
  }

  lemma PassableIff(policy: Policy, url: Url)
    ensures Blocked(policy, url) == None <==> Passable(policy, url)
  {
    BlockedIs(policy, url);
  }

  lemma ResolveIff(w: World, step: nat, hostname: string, address: string)
    ensures Resolve(w, step, hostname) == Address(address) <==> Reached(w, step, hostname, address)
    ensures Resolve(w, step, hostname) == Unresolved(AddressBlocked) <==> Unreachable(w, step, hostname)
    ensures Resolve(w, step, hostname) == Unresolved(InspectTimeout) <==> Unknown(w, step, hostname, TimedOut)
    ensures Resolve(w, step, hostname) == Unresolved(InspectFailed) <==> Unknown(w, step, hostname, Broken)
    ensures Resolve(w, step, hostname).Unresolved? ==>
      Resolve(w, step, hostname).error in {AddressBlocked, InspectTimeout, InspectFailed}
  {
  }

  lemma ReactIff(w: World, maxRedirects: nat, requests: seq<Request>, k: nat, url: Url)
    requires k < |requests| && k <= maxRedirects
    ensures React(w, maxRedirects, k, requests[k].url, Answer(w, requests, k)) == Goto(url)
       <==> LeadsTo(w, maxRedirects, requests, k, url)
  {
  }

  lemma StopIff(w: World, maxRedirects: nat, requests: seq<Request>, result: Result)
    requires requests != [] && |requests| <= maxRedirects + 1
    ensures var k := |requests| - 1;
      React(w, maxRedirects, k, requests[k].url, Answer(w, requests, k)) == Stop(result)
      <==> Closes(w, maxRedirects, requests, result)
  {
  }

  lemma AdmissibleIff(w: World, policy: Policy, requests: seq<Request>)
    ensures Admissible(w, policy, requests) <==> EachMay(w, policy, requests) && NoneTwice(requests)
  {
    forall i: nat | i < |requests|
      ensures Blocked(policy, requests[i].url) == None <==> Passable(policy, requests[i].url)
      ensures Resolve(w, i, requests[i].url.hostname) == Address(requests[i].address)
         <==> Reached(w, i, requests[i].url.hostname, requests[i].address)
    {
      PassableIff(policy, requests[i].url);
      ResolveIff(w, i, requests[i].url.hostname, requests[i].address);
    }
  }

  /** Where the request before it was said to lead, in the terms of the loop. */
  predicate Linked(w: World, maxRedirects: nat, requests: seq<Request>, i: nat)
    requires 1 <= i < |requests|
  {
    React(w, maxRedirects, i - 1, requests[i - 1].url, Answer(w, requests, i - 1)) == Goto(requests[i].url)
  }

  lemma ChainedIff(w: World, maxRedirects: nat, requests: seq<Request>)
    requires |requests| <= maxRedirects + 1
    ensures Chained(w, maxRedirects, requests) <==> EachLed(w, maxRedirects, requests)
  {
    forall i: nat | 1 <= i < |requests| ensures Linked(w, maxRedirects, requests, i) <==> Led(w, maxRedirects, requests, i) {
      ReactIff(w, maxRedirects, requests, i - 1, requests[i].url);
    }
    ChainedLinks(w, maxRedirects, requests);
  }

  lemma ChainedLinks(w: World, maxRedirects: nat, requests: seq<Request>)
    ensures Chained(w, maxRedirects, requests) <==> forall i :: 1 <= i < |requests| ==> Linked(w, maxRedirects, requests, i)
  {
    if Chained(w, maxRedirects, requests) {
      forall i | 1 <= i < |requests| ensures Linked(w, maxRedirects, requests, i) { assert requests[i] == requests[i]; }
    }
    if forall i :: 1 <= i < |requests| ==> Linked(w, maxRedirects, requests, i) {
      forall i | 1 <= i < |requests|
        ensures React(w, maxRedirects, i - 1, requests[i - 1].url, w.fetch(i - 1, requests[i - 1].url, requests[i - 1].address))
          == Goto(requests[i].url)
      {
        assert Linked(w, maxRedirects, requests, i);
      }
    }
  }

  lemma ReachesIff(w: World, policy: Policy, maxRedirects: nat, start: Url, before: seq<Request>, url: Url)
    requires |before| <= maxRedirects
    ensures Reaches(w, policy, maxRedirects, start, before, url)
       <==> Lawful(w, policy, maxRedirects, start, before) && Arrives(w, maxRedirects, start, before, url)
  {
    AdmissibleIff(w, policy, before);
    ChainedIff(w, maxRedirects, before);
    if before != [] { ReactIff(w, maxRedirects, before, |before| - 1, url); }
  }

  lemma RepeatedIff(requests: seq<Request>, url: Url)
    ensures url.text in Texts(requests) <==> Repeated(requests, url)
  {
  }

  /** The turn at a URL that is not requested. */
  lemma FailsIff(w: World, policy: Policy, maxRedirects: nat, before: seq<Request>, url: Url, result: Result)
    ensures Turnaround(w, policy, maxRedirects, |before|, url, Texts(before)) == Done(result, [])
       <==> result.Err? && Fails(w, policy, before, url, result.error)
  {
    RepeatedIff(before, url);
    UnsentIff(w, policy, maxRedirects, |before|, url, Texts(before), result);
    if Blocked(policy, url).Some? {
      BlockedFails(w, policy, before, url, result);
    } else {
      ResolvedFails(w, policy, before, url, result);
    }
  }

  /** A turn that sends nothing. */
  lemma UnsentIff(w: World, policy: Policy, maxRedirects: nat, step: nat, url: Url, visited: set<string>, result: Result)
    ensures Turnaround(w, policy, maxRedirects, step, url, visited) == Done(result, []) <==>
      if Blocked(policy, url).Some? then result == Err(Blocked(policy, url).value)
      else if url.text in visited then result == Err(RedirectLoop)
      else Resolve(w, step, url.hostname).Unresolved? && result == Err(Resolve(w, step, url.hostname).error)
  {
  }

  lemma BlockedFails(w: World, policy: Policy, before: seq<Request>, url: Url, result: Result)
    requires Blocked(policy, url).Some?
    ensures result == Err(Blocked(policy, url).value) <==> result.Err? && Fails(w, policy, before, url, result.error)
  {
    BlockedIs(policy, url);
  }

  lemma ResolvedFails(w: World, policy: Policy, before: seq<Request>, url: Url, result: Result)
    requires Blocked(policy, url) == None
    ensures (if Repeated(before, url) then result == Err(RedirectLoop)
             else Resolve(w, |before|, url.hostname).Unresolved? && result == Err(Resolve(w, |before|, url.hostname).error))
       <==> result.Err? && Fails(w, policy, before, url, result.error)
  {
    PassableIff(policy, url);
    ResolveIff(w, |before|, url.hostname, "");
  }

  /** The turn at a URL that is requested, and is the last. */
  lemma AnsweredIff(w: World, policy: Policy, maxRedirects: nat, requests: seq<Request>, front: seq<Request>, k: nat, result: Result)
    requires |requests| == k + 1 <= maxRedirects + 1 && front == requests[..k]
    ensures Turnaround(w, policy, maxRedirects, k, requests[k].url, Texts(front)) == Done(result, [requests[k]])
       <==> && Passable(policy, requests[k].url) && !Repeated(front, requests[k].url)
            && Reached(w, k, requests[k].url.hostname, requests[k].address) && Closes(w, maxRedirects, requests, result)
  {
    PassableIff(policy, requests[k].url);
    RepeatedIff(front, requests[k].url);
    ResolveIff(w, k, requests[k].url.hostname, requests[k].address);
    StopIff(w, maxRedirects, requests, result);
  }

  lemma MayFront(w: World, policy: Policy, front: seq<Request>, last: Request)
    ensures EachMay(w, policy, front + [last]) <==>
      EachMay(w, policy, front) && Passable(policy, last.url) && Reached(w, |front|, last.url.hostname, last.address)
  {
    var all := front + [last];
    assert all[|front|] == last && forall i :: 0 <= i < |front| ==> all[i] == front[i];
  }

  lemma LedAlike(w: World, maxRedirects: nat, front: seq<Request>, last: Request, k: nat, url: Url)
    requires k < |front|
    ensures LeadsTo(w, maxRedirects, front + [last], k, url) <==> LeadsTo(w, maxRedirects, front, k, url)
  {
    assert (front + [last])[k] == front[k];
  }

  lemma LedEarlier(w: World, maxRedirects: nat, front: seq<Request>, last: Request, all: seq<Request>, i: nat)
    requires all == front + [last] && 1 <= i < |front|
    ensures Led(w, maxRedirects, all, i) <==> Led(w, maxRedirects, front, i)
  {
    LedAlike(w, maxRedirects, front, last, i - 1, front[i].url);
  }

  /** The earlier requests, and the last. */
  lemma EachLedFront(w: World, maxRedirects: nat, front: seq<Request>, all: seq<Request>)
    requires |all| == |front| + 1
    requires forall i :: 1 <= i < |front| ==> (Led(w, maxRedirects, all, i) <==> Led(w, maxRedirects, front, i))
    ensures EachLed(w, maxRedirects, all) <==>
      EachLed(w, maxRedirects, front) && (front != [] ==> Led(w, maxRedirects, all, |front|))
  {
    if EachLed(w, maxRedirects, all) {
      forall i | 1 <= i < |front| ensures Led(w, maxRedirects, front, i) { assert Led(w, maxRedirects, all, i); }
    }
    if EachLed(w, maxRedirects, front) && (front != [] ==> Led(w, maxRedirects, all, |front|)) {
      forall i | 1 <= i < |all| ensures Led(w, maxRedirects, all, i) {
        if i < |front| { assert Led(w, maxRedirects, front, i); }
      }
    }
  }

  lemma LedFront(w: World, maxRedirects: nat, front: seq<Request>, last: Request, all: seq<Request>)
    requires all == front + [last]
    ensures EachLed(w, maxRedirects, all) <==>
      EachLed(w, maxRedirects, front) && (front != [] ==> LeadsTo(w, maxRedirects, front, |front| - 1, last.url))
  {
    forall i | 1 <= i < |front| ensures Led(w, maxRedirects, all, i) <==> Led(w, maxRedirects, front, i) {
      LedEarlier(w, maxRedirects, front, last, all, i);
    }
    if front != [] {
      LedAlike(w, maxRedirects, front, last, |front| - 1, last.url);
      assert all[|front|] == last;
      assert Led(w, maxRedirects, all, |front|) <==> LeadsTo(w, maxRedirects, front, |front| - 1, last.url);
    }
    assert |all| == |front| + 1;
    EachLedFront(w, maxRedirects, front, all);
  }

  lemma TwiceFront(front: seq<Request>, last: Request)
    ensures NoneTwice(front + [last]) <==> NoneTwice(front) && !Repeated(front, last.url)
  {
    var all := front + [last];
    assert all[|front|] == last && forall i :: 0 <= i < |front| ==> all[i] == front[i];
  }

  lemma StartFront(start: Url, front: seq<Request>, last: Request, all: seq<Request>)
    requires all == front + [last]
    ensures all[0].url == start <==> (front != [] ==> front[0].url == start) && (front == [] ==> last.url == start)
  {
  }

  lemma LawfulFront(w: World, policy: Policy, maxRedirects: nat, start: Url, front: seq<Request>, last: Request, all: seq<Request>)
    requires all == front + [last] && |front| <= maxRedirects
    ensures Lawful(w, policy, maxRedirects, start, all) <==>
      && Lawful(w, policy, maxRedirects, start, front) && Arrives(w, maxRedirects, start, front, last.url)
      && Passable(policy, last.url) && !Repeated(front, last.url)
      && Reached(w, |front|, last.url.hostname, last.address)
  {
    MayFront(w, policy, front, last);
    LedFront(w, maxRedirects, front, last, all);
    TwiceFront(front, last);
    StartFront(start, front, last, all);
  }

  lemma OutcomeIsLawful(w: World, policy: Policy, maxRedirects: nat, start: Url, before: seq<Request>, url: Url, result: Result, requests: seq<Request>)
    requires Outcome(w, policy, maxRedirects, start, before, url, result, requests)
    ensures Lawful(w, policy, maxRedirects, start, requests) && Ends(w, policy, maxRedirects, start, requests, result)
  {
    var k, last := |before|, requests[|before|..];
    ReachesIff(w, policy, maxRedirects, start, before, url);
    if last == [] {
      assert requests == before;
      FailsIff(w, policy, maxRedirects, before, url, result);
    } else {
      LastIsSafe(w, policy, maxRedirects, before, url, result, last);
      assert requests == before + [last[0]] && requests[k] == last[0] && requests[..k] == before;
      AnsweredIff(w, policy, maxRedirects, requests, before, k, result);
      LawfulFront(w, policy, maxRedirects, start, before, last[0], requests);
    }
  }

  lemma FailedOutcome(w: World, policy: Policy, maxRedirects: nat, start: Url, requests: seq<Request>, url: Url, error: Error)
    requires Lawful(w, policy, maxRedirects, start, requests) && Arrives(w, maxRedirects, start, requests, url)
    requires Fails(w, policy, requests, url, error)
    ensures Outcome(w, policy, maxRedirects, start, requests, url, Err(error), requests)
  {
    ReachesIff(w, policy, maxRedirects, start, requests, url);
    FailsIff(w, policy, maxRedirects, requests, url, Err(error));
    assert requests[..|requests|] == requests && requests[|requests|..] == [];
  }

  lemma ClosedOutcome(w: World, policy: Policy, maxRedirects: nat, start: Url, requests: seq<Request>, result: Result)
    requires requests != [] && Lawful(w, policy, maxRedirects, start, requests) && Closes(w, maxRedirects, requests, result)
    ensures var k := |requests| - 1;
      Outcome(w, policy, maxRedirects, start, requests[..k], requests[k].url, result, requests)
  {
    var k := |requests| - 1;
    assert requests == requests[..k] + [requests[k]];
    LawfulFront(w, policy, maxRedirects, start, requests[..k], requests[k], requests);
    ReachesIff(w, policy, maxRedirects, start, requests[..k], requests[k].url);
    AnsweredIff(w, policy, maxRedirects, requests, requests[..k], k, result);
    assert requests[k..] == [requests[k]];
  }

  /** What `inspectPublicUrl` does, in the terms of its inputs: it returns this result after these
      requests exactly if they are lawful and end so. */
  lemma RunIff(w: World, policy: Policy, maxRedirects: nat, start: Url, result: Result, requests: seq<Request>)
    ensures Follow(w, policy, maxRedirects, 0, start, {}, []) == (result, requests)
       <==> Lawful(w, policy, maxRedirects, start, requests) && Ends(w, policy, maxRedirects, start, requests, result)
  {
    FollowIffOutcome(w, policy, maxRedirects, start, result, requests);
    forall before, url | Outcome(w, policy, maxRedirects, start, before, url, result, requests)
      ensures Lawful(w, policy, maxRedirects, start, requests) && Ends(w, policy, maxRedirects, start, requests, result)
    {
      OutcomeIsLawful(w, policy, maxRedirects, start, before, url, result, requests);
    }
    if Lawful(w, policy, maxRedirects, start, requests) && Ends(w, policy, maxRedirects, start, requests, result) {
      EndedOutcome(w, policy, maxRedirects, start, requests, result);
    }
  }

  lemma EndedOutcome(w: World, policy: Policy, maxRedirects: nat, start: Url, requests: seq<Request>, result: Result)
    requires Lawful(w, policy, maxRedirects, start, requests) && Ends(w, policy, maxRedirects, start, requests, result)
    ensures exists before, url :: Outcome(w, policy, maxRedirects, start, before, url, result, requests)
  {
    if requests != [] && Closes(w, maxRedirects, requests, result) {
      ClosedOutcome(w, policy, maxRedirects, start, requests, result);
    } else {
      var url :| Arrives(w, maxRedirects, start, requests, url) && Fails(w, policy, requests, url, result.error);
      FailedOutcome(w, policy, maxRedirects, start, requests, url, result.error);
    }
  }

  /** No host that is denied is ever requested, where some are allowed every one requested is, and
      every address its name was looked up to is public. */
  lemma HostsObeyPolicy(w: World, policy: Policy, maxRedirects: nat, start: Url)
    ensures var (result, requests) := Follow(w, policy, maxRedirects, 0, start, {}, []);
      forall i :: 0 <= i < |requests| ==>
        var url := requests[i].url;
        && (forall k :: 0 <= k < |policy.deniedHosts| ==> !Covers(policy.deniedHosts[k], url.hostname))
        && (policy.allowedHosts != [] ==> exists k :: 0 <= k < |policy.allowedHosts| && Covers(policy.allowedHosts[k], url.hostname))
        && (url.protocol == "http:" || url.protocol == "https:") && url.username == "" && url.password == ""
        && (url.port == "" || url.port == (if url.protocol == "http:" then "80" else "443"))
        && (w.isAddress(url.hostname) ==> requests[i].address == url.hostname && w.public(url.hostname))
        && (!w.isAddress(url.hostname) ==>
              var found := w.lookup(i, url.hostname);
              found.Addresses? && requests[i].address in found.addresses && forall a :: a in found.addresses ==> w.public(a))
  {
    var (result, requests) := Follow(w, policy, maxRedirects, 0, start, {}, []);
    RunIff(w, policy, maxRedirects, start, result, requests);
    assert EachMay(w, policy, requests);
  }

  /** An error about the URL itself is reported exactly if a run of lawful requests leads to a URL
      that has it. */
  lemma UrlErrorIff(w: World, policy: Policy, maxRedirects: nat, start: Url, error: Error)
    requires error in {ProtocolBlocked, CredentialsBlocked, PortBlocked, HostBlocked, RedirectLoop, AddressBlocked}
    ensures var (result, requests) := Follow(w, policy, maxRedirects, 0, start, {}, []);
      result == Err(error)
      <==> exists url :: Arrives(w, maxRedirects, start, requests, url) && Fails(w, policy, requests, url, error)
  {
    var (result, requests) := Follow(w, policy, maxRedirects, 0, start, {}, []);
    RunIff(w, policy, maxRedirects, start, result, requests);
    RunIff(w, policy, maxRedirects, start, Err(error), requests);
  }
}
