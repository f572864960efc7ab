# A verified model of the workbench's scripts and pack loader

This project models, in Dafny, the parts of the workbench that decide something: which
addresses a URL inspector may reach, which signed requests a runner gateway accepts, which
packs, environments, releases and migrations are valid, and what the scripts that edit local
files leave behind. It proves what each of them promises, for all inputs or over all runs.

Where the program changes state step by step, the model does too: a class with the same
fields, or a method with the same loop. Each such method is proved equal to a function of its
inputs or of the old state, and the lemmas are about that function.

- `Text`, `Order`, `Ownership`: the string and list operations the scripts are written with
  (`indexOf`, `split`, `join`, `trim`, `sort`, `Set`), and the one-pass search for values with
  two owners.
- `AddressText`, `PublicAddress`, `AddressGrammar`: reading IPv4 and IPv6 texts, and deciding which addresses
  are public. The independent definition is the list of text forms of section 2.2 of RFC 4291.
  The parser accepts these and nothing else, except that it is lenient in two places: octets
  may be other spellings that `Number` reads, such as ones with leading zeros, and `::` may
  stand for no group. `AddressGrammar` states what `isIP` accepts, which is stricter, so the
  classification is proved of whole texts.
- `CappedReader`, `Redirects`: the byte-capped response reader as a machine over events, and
  the redirect loop against a recursive chain-following specification, with the network as an
  oracle that may answer differently at each step.
- `Nonces`, `Publication`, `Synthetic`: the runner gateway. The nonce table is related to the
  history of acceptances, first for calls one after the other, then for calls that overlap
  across the wait between check and insert. The publication protocol is a log of actions. The
  action store and the one-time codes are run over every interleaving on any number of
  processes.
- `ObjectGraph`, `PackCompiler`, `PackProperties`: the serializability walk over a heap that may
  share or cycle, and the cross-module validator with its tables of owners.
- `Sse`: the incremental reader of server-sent events against a batch reader of the whole text.
- `Promotion`: the feature-promotion ladder as a store of evidence files, and its collector.
- `EnvFile`, `EnvSetup`, `EnvLines`: the line-preserving editor of environment files, the initialization of
  two files with shared secrets, and the second reader of the same files.
- `ForkIdentity`, `MobileConfig`, `ForkFiles`: structural difference of JSON values, the expected
  mobile configuration, and configuring and checking three files.
- `EnvironmentSet`, `SecretValues`: isolation of environments, by reference and by value.
- `FlyConfig`, `FlyTemplate`, `Hosted`, `Rendered`: the rendered configuration, what providers
  tell of it (including reading the rendered Fly text back), and the check it must pass.
- `Migrations`: the ordering policy for database migrations.

The lemmas about these functions are joined by a second account that does not use them. What a
character, digit or white space is, `Characters` says by tables. `RedirectRules`, `NonceRules`,
`PublicationRules`, `SyntheticRules`, `PackRules`, `SseRules`, `PromotionRules`, `EnvRules`,
`ForkRules`, `EnvironmentRules`, `FlyRules`, `HostedRules` and `MigrationRules` say in the fields of
the inputs alone, or of the run so far, what each operation decides and answers, both directions:
which URLs are requested, which verdict each call gets, which callbacks go out to which origin,
which errors of the pack validator apply, what a stream of events carries, when a command of a
release is executed, what each key of the environment files reads, and so on.

Parameters stand for what is not computed here: `isIP` (`AddressGrammar` states which texts
it accepts), name resolution, HTTP responses, URL parsing, hashes and signatures, random values
and identifiers, the clock, JSON parsing of an event, the functions of the agent SDK, the two patterns for reset-only SQL, and the spelling of
the hosted environment variables (any spelling that is injective and matches
`[A-Z][A-Z0-9_]*`). The constants 3 (redirects), 131072 (bytes) and five minutes (nonces) are
parameters too, so the results hold for every value of them.

Some results say that a promise holds exactly under a condition, and give an input where it
does not:

- The calls of `next` return all events, however the text is cut into reads (`Sse.AllCalls`). A
  caller that stops at the first `null` gets them for every cutting exactly if no event follows a
  payload that counts as false, such as `null` or `0` (`Sse.StoppingEarlyIff`,
  `Sse.FalsyDelaysEvent`).
- An empty chunk at exactly the byte cap would mark a complete body as truncated
  (`CappedReader.EmptyChunkMatters`); this concerns the handler alone.
- Two calls that overlap between the nonce check and the insert are both accepted, and a late
  insert can shorten a newer entry (`Nonces.OverlapBothAccepted`, `Nonces.LateInsertShortensEntry`);
  acceptances are spaced exactly if those of overlapping calls are (`Nonces.SpacedIff`).
- An accepted request can be accepted again exactly if its timestamp, plus the time to hash its
  body, is not before that acceptance, and it can still be fresh (`Nonces.AcceptedAgainIff`): for
  instance any request of a sender whose clock is ahead (`Nonces.AheadAcceptedTwice`).
- A response is lost exactly if it is to carry a result that cannot be written as JSON
  (`Publication.ResponseCompletesIff`, `Publication.UnwritableResultIsLost`).
- Two artifacts get one id exactly when the first kind, sanitized, is a later one followed by
  `-` and its number (`Publication.IdsDistinctIff`), as `x-2` and `x` do
  (`Publication.TwoKindsOneId`).
- The pack validator forgets an owner with an empty name (`PackProperties.EmptyOwnerForgotten`);
  an accepted list is accepted in every order exactly if no named module repeats an id of one
  before it (`PackProperties.AcceptedInAnyOrderIff`).
- The record kept of a kind is the first one if its time cannot be read, whatever follows, and
  otherwise a latest one (`Promotion.UnreadableTimeSticks`, `Promotion.ReadableIsLatest`).
- The administrators' value is configured again on each initialization exactly while it and the
  user it is copied from are placeholders (`EnvSetup.SecondInitialization`,
  `EnvSetup.PlaceholderUserTwice`).
- The fork check does not see extra elements of an array (`ForkIdentity.LongerArrayPasses`), and
  of the ids the pattern admits it rejects those that start with a digit
  (`ForkFiles.SlugHasSchemeIff`).

## Model

| member | source | states |
|---|---|---|
| AddressText.Ipv6Bytes | scripts/public-url-inspect.ts:40-62 | the loop parser computes `ParseV6`, and its result is nothing or exactly 16 bytes |
| AddressText.CheckGroups | scripts/public-url-inspect.ts:55-61 | eight groups give their big-endian bytes, or nothing as soon as one is not a group |
| AddressText.SpellingParses | scripts/public-url-inspect.ts:40-62 | completeness: every text form of an IPv6 address, full or with one elided run, hexadecimal or dotted tail, parses to the bytes it stands for |
| AddressText.ParsedIsSpelling | scripts/public-url-inspect.ts:40-62 | soundness: whatever parses is one of these text forms |
| AddressText.ParsesIffSpelling | scripts/public-url-inspect.ts:40-62 | the parser and the text forms define each other |
| AddressText.HexFormSource | scripts/public-url-inspect.ts:42-47 | rewriting a dotted tail gives the hexadecimal spelling of the same form |
| PublicAddress.DottedReads | scripts/public-url-inspect.ts:32-38 | printing four bytes in dotted decimal and reading them back gives the bytes |
| PublicAddress.PrintedFormsParse | scripts/public-url-inspect.ts:40-62 | every printed form of any eight 16-bit groups (in full or with one run of zero groups elided, the last 32 bits in hexadecimal or in dotted decimal), in any case of letters and with any zone, parses to the groups' 16 bytes |
| PublicAddress.PrintedFormParses | scripts/public-url-inspect.ts:40-62 | in particular each such form as it is printed |
| PublicAddress.ZoneAndCaseIgnored | scripts/public-url-inspect.ts:41 | a zone suffix and the case of letters do not change the result |
| PublicAddress.NoColonNoParse | scripts/public-url-inspect.ts:40-62 | a text without a colon is no IPv6 address, so classification recurses at most once more |
| PublicAddress.MappedFormsCommute | scripts/public-url-inspect.ts:64-98 | every printed form of an IPv4-mapped address, in any case and with any zone, is public exactly if the dotted decimal of its IPv4 address is |
| PublicAddress.MappedTextsCommute | scripts/public-url-inspect.ts:64-98 | for all four bytes, `::ffff:` followed by two hexadecimal groups or by dotted decimal is classified as the dotted decimal alone |
| PublicAddress.PublicIffNoSpecialBlock | scripts/public-url-inspect.ts:70-86 | the byte tests decide membership of the 32-bit number in the special-purpose blocks, both directions |
| PublicAddress.PublicIffGlobalUnicast | scripts/public-url-inspect.ts:93-95 | an unmapped IPv6 address is public exactly inside 2000::/3 and outside 2001:db8::/32 |
| PublicAddress.PublicIffOutside | scripts/public-url-inspect.ts:64-98 | the classifier accepts exactly the IPv4 addresses outside the special blocks, the mapped ones of these, and the other IPv6 addresses in 2000::/3 without 2001:db8::/32 |
| AddressGrammar.Ipv6TextParses | scripts/public-url-inspect.ts:65-89 | every text that `isIP` takes for an IPv6 address is parsed |
| AddressGrammar.MappedFormsClassified | scripts/public-url-inspect.ts:64-98 | with the grammar of `isIP`: every printed form of every mapped address, in any case and with any zone, is classified as the dotted decimal, with no assumption |
| AddressGrammar.MappedTextsClassified | scripts/public-url-inspect.ts:64-98 | in particular both `::ffff:` texts, for all four bytes |
| AddressGrammar.PublicIffStandsOutside | scripts/public-url-inspect.ts:64-98 | with the grammar of `isIP`, the classifier accepts exactly the texts of addresses outside the special blocks |
| Characters.HexadecimalDigits | scripts/public-url-inspect.ts:58 | which character is the digit of which value, by the table `0123456789abcdef`, and that there are no others |
| Characters.HexadecimalPlaces | scripts/public-url-inspect.ts:58 | a further digit counts once and all before it sixteen times |
| Characters.DecimalDigits | scripts/public-url-inspect.ts:32-38 | the same for the table `0123456789` |
| Characters.DecimalPlaces | scripts/public-url-inspect.ts:32-38 | and ten times |
| Characters.SmallLetters | scripts/public-url-inspect.ts:22-30 | a text in small letters, character by character, by the two tables of letters |
| Characters.Spaces | scripts/public-url-inspect.ts:23 | white space, by its code points |
| Characters.TrimBetween | scripts/public-url-inspect.ts:23 | trimming takes the white space at both ends and nothing else |
| Characters.TrimParts | scripts/public-url-inspect.ts:23 | every text is its trimmed part between white space |
| AddressGrammar.DottedText | scripts/public-url-inspect.ts:32-38 | four numbers below 256 written with dots between are read as these bytes, and the text is public exactly outside the special blocks |
| AddressGrammar.LeadingGroupsDecide | scripts/public-url-inspect.ts:93-95 | for every text of eight groups, in any case of letters, the values of the first two groups decide: public exactly in 0x2000..0x3fff and not 2001:db8 |
| AddressGrammar.DocumentationIsBlocked | scripts/public-url-inspect.ts:93-95 | `2001:db8:` followed by any six groups is not public |
| AddressGrammar.NeighbourIsPublic | scripts/public-url-inspect.ts:93-95 | `2001:da8:` followed by any six groups is |
| AddressGrammar.DottedDigits | scripts/public-url-inspect.ts:32-38 | four texts of digits with dots between, leading zeros or not, are read as their values exactly if each is below 256 |
| CappedReader.ResponseReader.OnData | scripts/public-url-inspect.ts:164-179 | one chunk: what is kept, counted and marked as truncated |
| CappedReader.ResponseReader.Finish | scripts/public-url-inspect.ts:153-163 | `end` and `close` settle the promise once |
| CappedReader.ResponseReader.OnError | scripts/public-url-inspect.ts:182-185 | an error rejects a promise not yet settled |
| CappedReader.ReaderHolds | scripts/public-url-inspect.ts:149-182 | after any chunks the reader holds the first `maxBytes` bytes received, and says truncated exactly if bytes were dropped or an empty chunk came at the cap |
| CappedReader.SettledStays | scripts/public-url-inspect.ts:149-182 | a settled promise keeps its outcome whatever follows |
| CappedReader.SettlesOnce | scripts/public-url-inspect.ts:149-182 | the first `end`, `close` or `error` settles the promise, with the capped body |
| CappedReader.ChunkingIndependent | scripts/public-url-inspect.ts:149-182 | two ways of cutting the same bytes into non-empty chunks give one outcome |
| CappedReader.EmptyChunkMatters | scripts/public-url-inspect.ts:164-171 | events of the handlers where an empty chunk changes `truncated`; whether a response ever delivers one is not decided here |
| Redirects.LoopBody | scripts/public-url-inspect.ts:211-291 | one pass of the loop body with its early returns |
| Redirects.InspectPublicUrl | scripts/public-url-inspect.ts:200-323 | the loop computes the recursive chain-following specification; at most `maxRedirects + 1` requests go out, admissible and to public addresses; the return after the loop is unreachable |
| Redirects.FollowPasses | scripts/public-url-inspect.ts:211-291 | a run that has reached a URL by a chain goes on from there |
| Redirects.FollowIffOutcome | scripts/public-url-inspect.ts:211-323 | result and requests are exactly those of the one chain of allowed, public, pairwise different URLs that starts at the given URL, follows the responses and stops |
| Redirects.RunIsSafe | scripts/public-url-inspect.ts:211-261 | every run sends at most `maxRedirects + 1` requests, each to an allowed URL at a public address, no URL twice, each where the last response led |
| Redirects.NoSpecialAddressReached | scripts/public-url-inspect.ts:126-136 | with the classifier as it is, every request of every run goes to an address text that stands for an address outside the special blocks |
| Redirects.OkIffSucceeds | scripts/public-url-inspect.ts:293-318 | a run succeeds exactly at the end of such a chain and reports its last URL |
| Redirects.LimitIff | scripts/public-url-inspect.ts:262-279 | the limit is reported exactly if `maxRedirects + 1` requests were sent and the last was answered by a redirect that names a location |
| Redirects.LoopIff | scripts/public-url-inspect.ts:248-253 | a loop is reported exactly if the requests sent lead to an allowed URL that is one of theirs |
| RedirectRules.CoversIff | scripts/public-url-inspect.ts:21-30 | a pattern matches a host exactly if, trimmed and in small letters, it is `*`, or the host, or `*.` or `.` and a rest where the host is something, a dot and the rest |
| RedirectRules.BlockedIs | scripts/public-url-inspect.ts:212-247 | why a URL may not be requested, in the order of the checks: its protocol, its credentials, its port, the hosts denied and allowed |
| RedirectRules.ResolveIff | scripts/public-url-inspect.ts:126-136 | an address is used exactly if the host is one and public, or is looked up, and the first of what is found, all of it public |
| RedirectRules.RunIff | scripts/public-url-inspect.ts:200-323 | the program returns a result after these requests exactly if every request is for a URL that may be requested, at an address of its host, where the response before it leads, none twice, and the run ends so; in the fields of URLs, policy, lookups and responses |
| RedirectRules.HostsObeyPolicy | scripts/public-url-inspect.ts:126-247 | over every run no host requested is denied, each is allowed where some are, its protocol and port are standard, it has no credentials, and every address looked up for it is public |
| RedirectRules.UrlErrorIff | scripts/public-url-inspect.ts:211-261 | an error about the URL itself is reported exactly if lawful requests lead to a URL that has it |
| Nonces.RunnerNonces.Purge | scripts/langgraph-runtime-gateway.ts:199-202 | every expired entry is dropped, and nothing else |
| Nonces.RunnerNonces.Verify | scripts/langgraph-runtime-gateway.ts:160-224 | verdict and table of one undisturbed call |
| Nonces.RunRefines | scripts/langgraph-runtime-gateway.ts:186-223 | every sequential run keeps the table in step with the history of acceptances, and that history spaced |
| Nonces.HasIffRecent | scripts/langgraph-runtime-gateway.ts:199-206 | after purging, a nonce is in the table exactly if it was accepted less than `window` ago |
| Nonces.AcceptedIff | scripts/langgraph-runtime-gateway.ts:160-224 | a call is accepted exactly if its checks pass and its nonce was not accepted less than `window` ago |
| Nonces.AcceptedAgainIff | scripts/langgraph-runtime-gateway.ts:186-206 | after an acceptance of its nonce, a request that is sound otherwise can be accepted again exactly if its timestamp, plus the time hashing may take, is not before that acceptance, and it can still be fresh |
| Nonces.AcceptedAgainAtOnceIff | scripts/langgraph-runtime-gateway.ts:186-206 | with one reading of the clock: exactly if its timestamp is not before that acceptance, and it can still be fresh |
| Nonces.AheadAcceptedTwice | scripts/langgraph-runtime-gateway.ts:187-201 | any request whose timestamp is its acceptance or up to `window` later is accepted twice |
| Nonces.InterleaveTracks | scripts/langgraph-runtime-gateway.ts:199-223 | in every interleaving an entry holds the expiry of the acceptance inserted last |
| Nonces.CheckPassesIff | scripts/langgraph-runtime-gateway.ts:199-206 | in every interleaving a check passes exactly if the acceptance inserted last was checked at least `window` ago |
| Nonces.SpacedIff | scripts/langgraph-runtime-gateway.ts:199-223 | in every interleaving the acceptances of each nonce are at least `window` apart exactly if those of overlapping calls are |
| Nonces.NoOverlapSpaced | scripts/langgraph-runtime-gateway.ts:199-223 | in particular if accepted calls with one nonce do not overlap |
| Nonces.PassesAgainIff | scripts/langgraph-runtime-gateway.ts:186-206 | in every interleaving, exactly which requests get past the check again after an acceptance of their nonce |
| Nonces.OverlapBothAccepted | scripts/langgraph-runtime-gateway.ts:203-222 | an interleaving with an overlap where both are accepted |
| Nonces.LateInsertShortensEntry | scripts/langgraph-runtime-gateway.ts:203-222 | an interleaving where a late insert lets a third call in too soon |
| NonceRules.VerdictIff | scripts/langgraph-runtime-gateway.ts:160-224 | over every run each of the seven verdicts is given exactly under its condition on the fields of the call and on the calls accepted before |
| NonceRules.AcceptedExactly | scripts/langgraph-runtime-gateway.ts:160-224 | a call is accepted exactly if it is configured, complete, whole, signed and fresh, and no call accepted with its nonce lies less than `window` back |
| NonceRules.HistoryIff | scripts/langgraph-runtime-gateway.ts:186-223 | the history of a run consists of exactly its accepted calls |
| NonceRules.WaitsIff | scripts/langgraph-runtime-gateway.ts:186-223 | in every interleaving a call waits exactly from the check it passes until it is finished |
| NonceRules.AcceptanceIff | scripts/langgraph-runtime-gateway.ts:186-223 | in every interleaving the acceptances are exactly the calls that were fresh when checked, came `window` after the acceptance of their nonce inserted last, and were found signed |
| Publication.Exchange.Json | scripts/langgraph-runtime-gateway.ts:80-83 | a response begins with its head, which cannot be written twice, and completes if its body can be written |
| Publication.Exchange.PostCallback | scripts/langgraph-runtime-gateway.ts:369-503 | one callback: no request if none is asked for or a check refuses it, and what becomes of a request |
| Publication.Exchange.PublishArtifacts | scripts/langgraph-runtime-gateway.ts:779-820 | the loop over the artifacts: what is seen of it, and with which status it stops |
| Publication.Exchange.AnswerSuccess | scripts/langgraph-runtime-gateway.ts:776-829 | what is seen after a successful run, and the answer |
| Publication.Exchange.RunTool | scripts/langgraph-runtime-gateway.ts:772-829 | running the tool, and the answer |
| Publication.Exchange.Attempt | scripts/langgraph-runtime-gateway.ts:740-829 | what the handler does before it returns or throws |
| Publication.Exchange.Serve | scripts/langgraph-runtime-gateway.ts:740-854 | the handler, with the two places that answer after a throw, writes the specified log of callbacks, heads and bodies |
| Publication.LogShape | scripts/langgraph-runtime-gateway.ts:740-854 | on every path exactly the first callbacks of the invocation are seen, in order and each with its artifact's id, then one response head, then its body or, if the result is lost, an exception that nothing catches |
| Publication.SeenInTurn | scripts/langgraph-runtime-gateway.ts:740-820 | all callbacks seen but the last were delivered, the last was sent, and none is seen after the first that was not accepted |
| Publication.NonePublishedIff | scripts/langgraph-runtime-gateway.ts:373-465 | no callback is seen exactly if none is asked for, or the first is refused before it is sent or cannot be written or signed |
| Publication.AllPublishedIff | scripts/langgraph-runtime-gateway.ts:740-820 | a successful tool's k artifacts: callbacks 1 to k + 1 are all seen exactly if the first k were delivered, the last was sent, all artifacts could be written and, if there are any, input and output are valid |
| Publication.ResponseCompletesIff | scripts/langgraph-runtime-gateway.ts:80-83 | the response gets its body exactly unless it is to carry a result that cannot be written as JSON |
| Publication.UnwritableResultIsLost | scripts/langgraph-runtime-gateway.ts:821-852 | an unsuccessful result with such a value: a head goes out, no body, and the second attempt to answer throws too |
| Publication.OkIffAllWell | scripts/langgraph-runtime-gateway.ts:779-829 | a complete 200 is sent exactly if the run succeeded, everything including the result could be written, and every callback was accepted or none was asked for |
| Publication.AllWellLog | scripts/langgraph-runtime-gateway.ts:779-829 | then all k + 1 callbacks were sent, in order, each with its artifact's id, or none if none was asked for |
| Publication.SuffixInjective | scripts/langgraph-runtime-gateway.ts:781 | decimal suffixes determine kind and number |
| Publication.IdsDistinctIff | scripts/langgraph-runtime-gateway.ts:781 | artifact ids are pairwise distinct exactly if the first sanitized kind is no later one followed by `-` and its number |
| Publication.TwoKindsOneId | scripts/langgraph-runtime-gateway.ts:781 | two artifacts of kinds `x-2` and `x` get one id |
| PublicationRules.PostIs | scripts/langgraph-runtime-gateway.ts:369-503 | one callback is sent, accepted, or cannot be written, exactly under these settings and this network |
| PublicationRules.RefusalIs | scripts/langgraph-runtime-gateway.ts:375-503 | and refused with which status under which |
| PublicationRules.PublishIff | scripts/langgraph-runtime-gateway.ts:739-820 | a callback goes out, with this id, exactly if the settings permit it, it can be written, all before it were answered with 200 to 299, and the tool made its artifact and those before it writable |
| PublicationRules.OnlyAllowedOrigin | scripts/langgraph-runtime-gateway.ts:376-447 | every callback that goes out has a valid address at the one origin allowed, and a secret |
| PublicationRules.BadRequestIff | scripts/langgraph-runtime-gateway.ts:376-447 | the answer is 400 exactly if the callback asked for is at fault |
| PublicationRules.ConflictIff | scripts/langgraph-runtime-gateway.ts:760-820 | 409 exactly if publication is not configured, or a callback was refused after all before it arrived |
| PublicationRules.BadGatewayIff | scripts/langgraph-runtime-gateway.ts:760-855 | 502 exactly if the first callback was lost or could not be written, the tool did not succeed, or an artifact or its callback could not be written |
| PublicationRules.SuccessIff | scripts/langgraph-runtime-gateway.ts:772-829 | 200 exactly if the tool ran well, all it made could be written, and every callback arrived or none was asked for |
| PublicationRules.BodyIff | scripts/langgraph-runtime-gateway.ts:80-83 | the body follows unless the result sent cannot be written; then an exception is not caught |
| PublicationRules.SanitizedAt | scripts/langgraph-runtime-gateway.ts:781 | letters, digits, `_` and `-` of a kind stay and everything else becomes `-` |
| Synthetic.Gateway.OnAction | scripts/langgraph-runtime-gateway.ts:962-1007 | reply and new state of an action or reconcile request |
| Synthetic.Gateway.OnAuthorize | scripts/langgraph-runtime-gateway.ts:902-925 | reply and new state of a code request |
| Synthetic.Gateway.OnRedeem | scripts/langgraph-runtime-gateway.ts:943-959 | reply and new state of a redemption |
| Synthetic.RepliesCarryReference | scripts/langgraph-runtime-gateway.ts:973-1006 | over every interleaving on any number of processes a success reply carries the reference made of the trimmed key |
| Synthetic.KnownIffCompleted | scripts/langgraph-runtime-gateway.ts:978-1000 | a process knows a key exactly if it completed an operation for it |
| Synthetic.NewIffFirst | scripts/langgraph-runtime-gateway.ts:978-1006 | in one process exactly the first completed operation of a key finds no prior entry |
| Synthetic.GrantedToItsVerifier | scripts/langgraph-runtime-gateway.ts:943-951 | a code is granted only by its issuer and only to a verifier that hashes to its challenge |
| Synthetic.GoneAfterGrant | scripts/langgraph-runtime-gateway.ts:951 | after a grant the code is gone unless issued anew |
| Synthetic.RedeemedAtMostOnce | scripts/langgraph-runtime-gateway.ts:918-951 | each issued code is redeemed at most once |
| SyntheticRules.ActReply | scripts/langgraph-runtime-gateway.ts:962-1007 | over every run, the reply to an operation: 401, 400, or the reference made of its trimmed key and whether this process was asked for it before |
| SyntheticRules.AuthorizeReply | scripts/langgraph-runtime-gateway.ts:902-926 | a code is issued exactly for a local redirect with a state and an S256 challenge |
| SyntheticRules.RedeemReply | scripts/langgraph-runtime-gateway.ts:943-960 | a code is granted exactly if this process was given it with the challenge its verifier hashes to, and neither granted it nor got another challenge since |
| ObjectGraph.Walker.Visit | agent-packs/index.ts:69-90 | the walk accepts as specified and leaves `seen` as it was; it terminates on every finite heap |
| ObjectGraph.AcceptsIffNoCycle | agent-packs/index.ts:67-92 | a value is accepted exactly if no rejected leaf and no cycle is reachable; sharing is fine |
| ObjectGraph.AcceptsIffTree | agent-packs/index.ts:67-92 | a value is accepted exactly if it denotes a finite tree of serializable leaves |
| ObjectGraph.DenotesUnique | agent-packs/index.ts:67-92 | and that tree is unique |
| ObjectGraph.RejectedWalk | agent-packs/index.ts:67-92 | a rejected value has a walk that shows why |
| ObjectGraph.LeafAcceptedIff | agent-packs/index.ts:71-80 | of the values that are no objects exactly `null`, booleans, texts and finite numbers are accepted |
| PackCompiler.RequireUnique | scripts/agent-pack-compiler.ts:162-166 | an id is refused exactly if a named owner holds it |
| PackCompiler.ClaimAll | scripts/agent-pack-compiler.ts:346-348 | a loop of claims succeeds exactly if none is refused |
| PackCompiler.ClaimedIff | scripts/agent-pack-compiler.ts:162-166 | claims succeed exactly if no id is claimed again after a claim with a named owner |
| PackCompiler.CheckVersions | scripts/agent-pack-compiler.ts:183-221 | the first checks of a module, branch by branch: accepted exactly if manifest, compatibility range and package metadata are sound |
| PackCompiler.CheckRuntimes | scripts/agent-pack-compiler.ts:223-238 | the loop over the three runtimes accepts exactly if each identifies the pack, all name one runtime version, and it fits |
| PackCompiler.CheckTool | scripts/agent-pack-compiler.ts:247-335 | one control-plane tool: schemas, modes, action binding and runner contract, in the order of the source |
| PackCompiler.CheckTools | scripts/agent-pack-compiler.ts:239-345 | map sizes decide whether ids repeat; every tool is sound, and every runner tool is declared and executable |
| PackCompiler.CheckWorkflow | scripts/agent-pack-compiler.ts:355-410 | one workflow is accepted exactly if its binding is sound and its type is free; the type is claimed before the binding's tools are looked up |
| PackCompiler.CheckWorkflows | scripts/agent-pack-compiler.ts:354-411 | the loop over the workflows with its claims inside |
| PackCompiler.CheckRenderers | scripts/agent-pack-compiler.ts:412-417 | the loop over the renderers with its claims inside |
| PackCompiler.CheckModule | scripts/agent-pack-compiler.ts:181-430 | one turn of the loop is passed exactly if the checks of each part succeed and none of its claims is refused, and leaves the four tables with its claims |
| PackCompiler.AllTurnsOkIff | scripts/agent-pack-compiler.ts:181-430 | that is: exactly if the module is sound alone and the tables take all it declares |
| PackCompiler.ValidateLoadedModules | scripts/agent-pack-compiler.ts:168-432 | the validator accepts exactly the well-formed lists of modules |
| PackProperties.UnclashingIffDistinct | scripts/agent-pack-compiler.ts:162-166 | with named owners the tables decide pairwise distinctness |
| PackProperties.AcceptedIffDistinct | scripts/agent-pack-compiler.ts:168-432 | acceptance is soundness of each module and distinct pack ids, tool ids, workflow types and renderer kinds over the whole list |
| PackProperties.EmptyOwnerForgotten | scripts/agent-pack-compiler.ts:162-166 | two modules with the same tool, one of them without a pack id, are accepted in one order and not in the other |
| PackProperties.AcceptedInAnyOrderIff | scripts/agent-pack-compiler.ts:168-432 | an accepted list, named or not, is accepted in every order exactly if no module with a name declares an id that a module before it declares |
| PackProperties.SelectionAccepted | scripts/agent-pack-compiler.ts:168-436 | any selection of an accepted list of named modules, in any order, is accepted |
| PackProperties.PermutationInvariant | scripts/agent-pack-compiler.ts:168-432 | acceptance of named modules does not depend on their order |
| PackProperties.DisablingKeepsAcceptance | scripts/agent-pack-compiler.ts:434-436 | disabling entries never invalidates the rest, named or not |
| PackProperties.AcceptedBijection | scripts/agent-pack-compiler.ts:299-345 | in an accepted module fly tools and runner tools match one to one with equal contracts, field by field, if contracts written alike are alike; so every runner tool is a fly tool |
| PackCompiler.FindsLastBinding | scripts/agent-pack-compiler.ts:354-359 | of several bindings of a kind the last is found; `FindBinding` finds none exactly if none has it |
| PackCompiler.FindsLastTool | scripts/agent-pack-compiler.ts:239-240 | of several tools with an id the last is found |
| PackCompiler.FindsFirstConnection | scripts/agent-pack-compiler.ts:290-299 | of several connections that bind the tool the first is found |
| PackRules.PackSoundIff | scripts/agent-pack-compiler.ts:175-238 | the checks of a manifest and its runtimes pass exactly if none of their ten errors applies |
| PackRules.ToolSoundIff | scripts/agent-pack-compiler.ts:247-335 | the checks of a tool pass exactly if none of thirteen errors applies, told by its fields, the connections and the runner tools |
| PackRules.ProvidersSoundIff | scripts/agent-pack-compiler.ts:239-353 | the checks of all tools pass exactly if no id repeats, every tool is sound, every runner tool is declared and executable, and every tool declared is provided |
| PackRules.WorkflowSoundIff | scripts/agent-pack-compiler.ts:354-409 | a workflow is accepted exactly if it has a binding and the last one is of its engine, with sound schemas, all inputs and tools, and conforming |
| PackRules.FaultlessIff | scripts/agent-pack-compiler.ts:175-430 | a module passes its own checks exactly if no error applies to it |
| PackRules.AcceptedIff | scripts/agent-pack-compiler.ts:162-432 | a list is accepted exactly if the workbench version can be read, no error applies to any module, and no module with a name declares an id that it or a later one declares again |
| Sse.JoinData | scripts/smoke-cloudflare-session-events.ts:79-82 | the loop joins the data lines of a block as specified |
| Sse.SseReader.ReadBufferedEvent | scripts/smoke-cloudflare-session-events.ts:71-85 | one event or none, and the buffer that is left; the skipping recursion terminates |
| Sse.SseReader.Next | scripts/smoke-cloudflare-session-events.ts:53-69 | outcome, buffer and remaining reads of one call |
| Sse.CallsSoFar | scripts/smoke-cloudflare-session-events.ts:53-85 | at every moment, however the text is cut into reads, what the calls of `next` have returned or thrown, followed by the results of the data texts still to come, are the results of the batch: nothing is lost, repeated or reordered |
| Sse.AllCalls | scripts/smoke-cloudflare-session-events.ts:53-85 | enough calls return every event of the batch, in order, and throw once for each malformed text; `null` results are left out |
| Sse.AllEvents | scripts/smoke-cloudflare-session-events.ts:53-85 | with no malformed text these are exactly the events of the batch |
| Sse.ChunkingIndependence | scripts/smoke-cloudflare-session-events.ts:53-85 | two ways of cutting one text into reads give the same results, for every text |
| Sse.DrainIsBatch | scripts/smoke-cloudflare-session-events.ts:98-106 | a caller that stops at the first `null` gets all events of the batch if none follows a payload that counts as false |
| Sse.StoppingEarlyIff | scripts/smoke-cloudflare-session-events.ts:98-106 | and gets them for every cutting exactly in that case |
| Sse.OneReadStopsEarly | scripts/smoke-cloudflare-session-events.ts:98-106 | in one read, such a caller gets what comes before the first such payload |
| Sse.FalsyDelaysEvent | scripts/smoke-cloudflare-session-events.ts:53-85 | an event after such a payload, both in one read: the first call returns `null`, the second the event; in two reads the first call returns the event |
| Sse.EncodedIsReadBack | scripts/smoke-cloudflare-session-events.ts:71-85 | payloads written as `data:` blocks are read back one by one |
| SseRules.BlockIs | scripts/smoke-cloudflare-session-events.ts:76-83 | the data of a block: nothing for a comment, else what follows `data:` and white space on each of its lines, put together |
| SseRules.StreamIs | scripts/smoke-cloudflare-session-events.ts:71-85 | the data texts of any list of blocks, each ended by a blank line, are exactly what the blocks carry |
| SseRules.EveryStream | scripts/smoke-cloudflare-session-events.ts:71-85 | and every text is such a list of blocks and an unfinished rest |
| Promotion.EvidenceStore.RunCommand | scripts/environment-command.ts:41-225 | a command runs exactly if all gates pass, and then writes its record |
| Promotion.SecretGateIff | scripts/environment-command.ts:149-171 | over every run, the gate on secret evidence is open exactly if secrets were configured for the target at that commit |
| Promotion.EveryRunKeepsLadder | scripts/environment-command.ts:149-225 | in every run promotion evidence is downward closed, implies secret evidence, and is never written by a bootstrap |
| Promotion.FileIsLastDeploy | scripts/environment-command.ts:199-225 | the record of a stage is that of its last deployment |
| Promotion.CollectStages | scripts/collect-release-evidence.ts:94-118 | the loop accepts exactly if every stage has valid evidence no earlier than the one before |
| Promotion.CollectPromotions | scripts/collect-release-evidence.ts:90-118 | the same for the stages the target requires |
| Promotion.CollectorIff | scripts/collect-release-evidence.ts:90-118 | over a whole run the check passes exactly if every stage was deployed and the last deployments come in stage order |
| Promotion.NeverReturningIsAccepted | scripts/collect-release-evidence.ts:90-118 | a run that never returns to an earlier stage passes once the last stage is deployed |
| Promotion.MissingKinds | scripts/collect-release-evidence.ts:76-88 | exactly the required kinds are missing whose deciding record did not pass |
| Promotion.KeptPassesIff | scripts/collect-release-evidence.ts:76-85 | the record kept of a kind is the first if that has no readable time, otherwise the first of the latest; the kind passes exactly if this record does |
| Promotion.ReadableIsLatest | scripts/collect-release-evidence.ts:76-82 | if the first record of a kind has a readable time, so has the one kept, and no readable record of the kind is later |
| Promotion.UnreadableTimeSticks | scripts/collect-release-evidence.ts:76-82 | in any list, if the first record of a kind has no readable time, it is the one kept |
| PromotionRules.RanIff | scripts/environment-command.ts:41-198 | over every run a command is executed exactly if its arguments allow it; a migration has a backup of its target and commit with a checksum; a deployment follows its secrets, and that of a stage one of the stage before |
| PromotionRules.FileIs | scripts/environment-command.ts:199-225 | a file holds exactly what the last event that writes it wrote, and is there exactly if there is one |
| PromotionRules.ProductionCollectedIff | scripts/collect-release-evidence.ts:90-118 | a run is accepted for production exactly if its last deployments without features, with retained data and with connections came in this order |
| PromotionRules.AcceptanceCollectedIff | scripts/collect-release-evidence.ts:90-118 | and for acceptance if besides that with mutations came after them |
| EnvFile.SetPlaceholderValue | scripts/workbench-init.ts:29-47 | the edit computes the specified text and says whether it changed it |
| EnvFile.SetValueLaw | scripts/workbench-init.ts:21-47 | the key reads its old value if that was real and not replaceable, else the new one; every other key reads as before |
| EnvFile.OtherLinesKept | scripts/workbench-init.ts:29-47 | after one edit every other line keeps place and content, up to a carriage return at its end |
| EnvFile.SetValueIdempotent | scripts/workbench-init.ts:29-47 | a real value is not edited a second time |
| EnvFile.ReadNormalized | scripts/workbench-init.ts:24-27 | carriage returns do not change what is read |
| EnvSetup.WriteConfiguredFile | scripts/workbench-init.ts:49-65 | the loop over the values computes content and configured keys |
| EnvSetup.WrittenLaw | scripts/workbench-init.ts:49-65 | what every key reads after all edits, whatever the file held |
| EnvLines.WrittenLines | scripts/workbench-init.ts:29-65 | the file written, line by line: the first assignment of a key not kept holds the new value, every other line is in its place up to carriage returns at its end, and what follows is exactly an assignment of each key without a line, and perhaps the line break added |
| EnvSetup.SecondRunChangesNothing | scripts/workbench-init.ts:49-65 | a second run configures nothing and leaves the file byte for byte |
| EnvSetup.InitializeFiles | scripts/workbench-init.ts:92-135 | both files and the list of configured keys |
| EnvLines.InitializedLines | scripts/workbench-init.ts:92-135 | the line law for both files |
| EnvSetup.InitializedFilesAgreeIff | scripts/workbench-init.ts:67-135 | the two files agree on each shared secret exactly unless both already held different real values |
| EnvSetup.SecondInitialization | scripts/workbench-init.ts:92-135 | a second initialization with other random values configures nothing, or exactly the administrators if these and their source are placeholders |
| EnvSetup.PlaceholderUserTwice | scripts/workbench-init.ts:116 | a file that holds only a placeholder for the user: the second initialization configures the administrators again |
| EnvSetup.ParseLocalEnvironment | scripts/workbench-local-env.ts:6-24 | the line loop computes the record, the last assignment winning |
| EnvSetup.ReadersAgreeIff | scripts/workbench-local-env.ts:6-24 | on a key assigned on one line that starts with it, both readers find it, and agree exactly if the value is not quoted |
| EnvSetup.ProtoIsNoEntry | scripts/workbench-local-env.ts:7-23 | an assignment of `__proto__` never becomes an entry |
| EnvRules.SharedIs | scripts/workbench-init.ts:67-71 | the shared value is the first real one of the two, else the one drawn; and what each file then reads |
| EnvRules.NextLine | scripts/workbench-init.ts:25 | a line ends at its line break, and one carriage return before that is not part of it |
| EnvRules.ReadIff | scripts/workbench-init.ts:24-27 | a key reads as the trimmed text of the first line that assigns it, and as nothing exactly if none does |
| EnvRules.SharedSecretReads | scripts/workbench-init.ts:67-135 | each file keeps its own real secret, else takes the real one of the other file, else both take the one drawn |
| EnvRules.AdministratorsRead | scripts/workbench-init.ts:112-117 | what the administrators read |
| EnvRules.WorkerSecretsRead | scripts/workbench-init.ts:103-110 | what the secrets of the Worker alone read |
| EnvRules.TransportReads | scripts/workbench-init.ts:118-135 | the transport is `fly` unless it was real and not `inline` |
| EnvRules.AddressesRead | scripts/workbench-init.ts:118-135 | the two addresses stay if they are real, else are the ones given |
| EnvRules.OthersRead | scripts/workbench-init.ts:49-135 | every other key reads as before |
| EnvRules.ConfiguredIs | scripts/workbench-init.ts:49-135 | the keys configured are exactly those without a real value, and a transport `inline`, in order |
| EnvRules.UnquoteIff | scripts/workbench-local-env.ts:14-20 | what is left of a value between two quotes of a kind, or of a quote alone |
| EnvRules.EntersIff | scripts/workbench-local-env.ts:8-21 | what a line assigns, by its parts |
| EnvRules.RecordIff | scripts/workbench-local-env.ts:6-24 | the record holds for each key the value of the last line that assigns it, and nothing else |
| ForkIdentity.NoDifferenceIffContained | scripts/workbench-fork.ts:89-107 | no difference is reported exactly if at every path of the expected value the actual one holds something alike |
| ForkIdentity.NoDifferenceFromItself | scripts/workbench-fork.ts:89-107 | a value does not differ from itself |
| ForkIdentity.LongerArrayPasses | scripts/workbench-fork.ts:90-95 | elements beyond the expected ones are not compared |
| MobileConfig.ExpectedMobileIdempotent | scripts/workbench-fork.ts:62-87 | computing the configuration again for the same identity changes nothing |
| MobileConfig.FixedIffSettled | scripts/workbench-fork.ts:62-87 | the configurations left as they are are exactly those that hold the identity in every listed place |
| MobileConfig.ExpectedMobileKeeps | scripts/workbench-fork.ts:62-87 | nothing outside the listed fields changes, at any depth |
| ForkFiles.SlugHasSchemeIff | scripts/workbench-fork.ts:37-56 | of the admitted ids exactly those starting with a letter have a valid scheme |
| ForkFiles.GivenValuesSet | scripts/workbench-fork.ts:109-126 | every given value is set, trimmed, in each of its places, and what is not given stays |
| ForkFiles.OtherFieldsKept | scripts/workbench-fork.ts:112-126 | no other field of the product file changes |
| ForkFiles.OtherMobileFieldsKept | scripts/workbench-fork.ts:119-125 | no other field of its mobile part changes |
| ForkFiles.OtherPackageFieldsKept | scripts/workbench-fork.ts:132 | no other field of the package file changes |
| ForkFiles.ForkRoot.Init | scripts/workbench-fork.ts:109-148 | three files are overwritten, or none if it throws |
| ForkFiles.ForkRoot.Check | scripts/workbench-fork.ts:134-142 | succeeds exactly if every file holds, at every path, what the plan expects; nothing is written |
| ForkFiles.NoDriftIffHeld | scripts/workbench-fork.ts:134-142 | no drift is found exactly if each of the three files contains what the plan expects of it |
| ForkFiles.InitMakesConsistent | scripts/workbench-fork.ts:109-148 | after any successful initialization a check of the files read back finds no drift |
| ForkRules.SlugIff | scripts/workbench-fork.ts:41 | the pattern of ids, by the tables of letters and digits |
| ForkRules.SchemeIff | scripts/workbench-fork.ts:54 | the pattern of schemes |
| ForkRules.BundleIff | scripts/workbench-fork.ts:57 | the pattern of bundle identifiers: a name and at least two labels, with dots between |
| ForkRules.SchemeKeeps | scripts/workbench-fork.ts:37 | the default scheme keeps the small letters and digits of the id, in order |
| ForkRules.OriginChosen | scripts/workbench-fork.ts:118 | a given origin is taken trimmed and without one slash at its end, if anything is left |
| ForkRules.ValidIff | scripts/workbench-fork.ts:39-60 | which identities are valid, in fields |
| ForkRules.IdentityIff | scripts/workbench-fork.ts:109-126 | when an identity can be made |
| ForkRules.PlanIff | scripts/workbench-fork.ts:109-132 | a plan is made exactly if that identity is valid and the lists in the mobile configuration can be mapped |
| ForkRules.PlanFollows | scripts/workbench-fork.ts:62-87 | of every plan, the mobile configuration holds the names, the bundle, the domain and the hosts of the identity, and the package its id and description |
| ForkRules.PlainStays | scripts/workbench-fork.ts:31-34 | a value that JSON can hold is read back as it was written |
| ForkRules.StoredIsPlain | scripts/workbench-fork.ts:31-34 | whatever is written can be, and undefined fields are not written |
| ForkRules.ReportedIff | scripts/workbench-fork.ts:89-107 | the paths reported are exactly those to the first places where the two values are not alike |
| ForkRules.DriftIff | scripts/workbench-fork.ts:134-140 | each with its file |
| Ownership.Record | scripts/workbench-environment.ts:273-280 | the pass over the map of owners computes the specified ledger |
| Ownership.NothingSharedIff | scripts/workbench-environment.ts:282-292 | nothing is found shared exactly if all claimed values are distinct |
| Ownership.ReportedIff | scripts/workbench-environment.ts:276-291 | what is reported are exactly the repeats: a claim of a value that an earlier named claim holds, with the names of both |
| EnvironmentSet.CheckManifests | scripts/workbench-environment.ts:254-266 | the failures of each manifest alone |
| EnvironmentSet.CheckResources | scripts/workbench-environment.ts:268-280 | the resources found shared, key by key |
| EnvironmentSet.CheckSecrets | scripts/workbench-environment.ts:282-292 | the secret references found shared, over all manifests and roles |
| EnvironmentSet.ValidateEnvironmentSet | scripts/workbench-environment.ts:249-294 | all failures, in order |
| EnvironmentSet.JoinedDistinctIff | scripts/workbench-environment.ts:282-292 | the flat list is distinct exactly if any two (manifest, role) pairs differ |
| EnvironmentSet.AcceptedIffIsolated | scripts/workbench-environment.ts:249-294 | no failure exactly if targets, each resource and all secret references are pairwise distinct and every manifest is safe |
| SecretValues.ValidateSecretValues | scripts/workbench-environment.ts:296-323 | all failures about secret values, in order |
| SecretValues.AcceptedIffDistinctValues | scripts/workbench-environment.ts:296-323 | no failure exactly if all trimmed values are present, at least 32 long and distinct over all (environment, role) pairs |
| EnvironmentRules.SetAcceptedIff | scripts/workbench-environment.ts:249-294 | no failure exactly if no two environments share a target or any of twelve resources, no reference stands for two roles, none turns mutations on, and production has neither conformance nor the memory vault |
| EnvironmentRules.OwnReports | scripts/workbench-environment.ts:254-266 | which failures are reported of a manifest alone |
| EnvironmentRules.ValuesAcceptedIff | scripts/workbench-environment.ts:296-323 | no failure exactly if every role of every environment has a trimmed value of at least 32 characters, and no two the same |
| EnvironmentRules.RoleReports | scripts/workbench-environment.ts:303-308 | which values are reported missing or too short |
| FlyConfig.ParseFlyInventory | scripts/hosted-configuration-core.ts:121-139 | the line loop with its `inEnv` flag computes the inventory |
| FlyConfig.EntryReads | scripts/hosted-configuration-core.ts:131-132 | a written line is read back as it is, or not at all if its value holds a line terminator |
| FlyConfig.SectionRoundTrip | scripts/hosted-configuration-core.ts:121-133 | a written section is read back as its entries, and nothing around it is read |
| FlyTemplate.RenderedReads | scripts/render-environment-config.ts:136-172 | the rendered file defines exactly its entries, for any newline-free application name and values |
| FlyRules.DefinesIff | scripts/hosted-configuration-core.ts:131-132 | which lines define a variable, by their parts: name, `=`, and the value between quotes, with white space around |
| FlyRules.FlagIff | scripts/hosted-configuration-core.ts:124-130 | the flag of the loop is set exactly after a header with no other section since |
| FlyRules.InventoryIff | scripts/hosted-configuration-core.ts:121-139 | the inventory holds a secret by name, and any other variable with the value of the last line of the section that defines it |
| Hosted.ValidateHostedConfiguration | scripts/hosted-configuration-core.ts:141-180 | all failures, in order |
| Hosted.AcceptedIffSound | scripts/hosted-configuration-core.ts:141-180 | no failure exactly if every service holds what it must, nothing forbidden, and the values asked for |
| Rendered.FlyFileReads | scripts/render-environment-config.ts:136-172 | the values the check reads survive the round trip whatever the origins hold, and no other variable appears |
| Rendered.StageIff | scripts/render-environment-config.ts:15-19 | the three flags are those demanded exactly for the stage demanded |
| Rendered.DeployedPassesIff | scripts/hosted-configuration-core.ts:141-180 | what is rendered and configured passes the check exactly if stage, conformance, vault and commit are those of the target |
| HostedRules.PassesExactly | scripts/hosted-configuration-core.ts:141-180 | no failure exactly if every service has each variable it needs and none it may not have, told variable by variable, and the values told are those asked for |
| HostedRules.ReportedExactly | scripts/hosted-configuration-core.ts:150-157 | a variable is reported missing or forbidden exactly if it is |
| HostedRules.ThrowsIff | scripts/render-environment-config.ts:26-53 | rendering throws exactly for a bootstrap with features, an origin that is no URL, or a release that is no commit |
| HostedRules.FlyValuesRead | scripts/render-environment-config.ts:136-156 | the eight values the Fly application reads of its rendered file |
| HostedRules.SecretsAgree | scripts/configure-environment-secrets-core.ts:17-43 | services agree on every secret that two of them have |
| HostedRules.VercelSetAsAsked | scripts/configure-environment-secrets-core.ts:44-61 | what is set on Vercel is what the check asks for |
| Order.SortedIff | scripts/d1-migration-policy.ts:13-22 | sorting leaves a list as it is exactly if it is in order |
| Order.SizeIffDistinct | scripts/d1-migration-policy.ts:16 | the set of a list is as large as the list exactly if nothing repeats |
| Migrations.ValidateMigrationFiles | scripts/d1-migration-policy.ts:8-57 | all errors, in order |
| Migrations.CheckFiles | scripts/d1-migration-policy.ts:24-45 | the loop over the files: their errors and the names that are numbered |
| Migrations.SmallerDiffersDown | scripts/d1-migration-policy.ts:30 | fixed-width decimal order is lexicographic order |
| Migrations.NumberedAreOrdered | scripts/d1-migration-policy.ts:16-22 | files numbered in their order are distinct and sorted |
| Migrations.AcceptedIffWellFormed | scripts/d1-migration-policy.ts:8-57 | no error exactly if the i-th file carries number i in a proper name and none is blank or reset-only |
| Migrations.AcceptedFits | scripts/d1-migration-policy.ts:47-54 | an accepted list has at most 9999 files |
| Migrations.AcceptedPrefixes | scripts/d1-migration-policy.ts:8-57 | every prefix of an accepted list is accepted |
| Migrations.OrderReportedIff | scripts/d1-migration-policy.ts:16-22 | a repetition and a wrong order are each reported exactly when they occur |
| MigrationRules.NameIff | scripts/d1-migration-policy.ts:1 | the pattern of names: four digits, `_`, a word, `.sql` |
| MigrationRules.AcceptedIff | scripts/d1-migration-policy.ts:8-57 | no error exactly if the i-th name is the numeral of i in four digits, `_`, a word and `.sql`, and no file is blank or reset-only |
| MigrationRules.FileReportedIff | scripts/d1-migration-policy.ts:24-45 | a file is reported misnamed, blank or reset-only exactly if it is |
| MigrationRules.NumberReportedIff | scripts/d1-migration-policy.ts:47-54 | a number is reported wrong exactly if a proper name does not carry the number of its place among the proper names |
| MigrationRules.PrefixFirst | scripts/d1-migration-policy.ts:13-22 | a text comes before every longer one that starts with it |

## Left out

- Nonces.RunnerNonces.Verify: hashing and signatures are compared outside; the configured secret is not part of it.
- PackCompiler.ValidateLoadedModules: says whether the validator throws, not which of several failures it reports first; the SDK's schema and version functions and the JSON writer are parameters, and so is the check of the value made of a conformance input.
- Publication.Exchange.PostCallback: a request counts as sent once it is handed to the network, which may still fail; what is logged of failed callbacks is not modelled.
- AddressGrammar.Ipv6TextParses: `isIP` is stated as a grammar, not as the pattern Node matches.
- ForkIdentity.NoDifferenceIffContained: an object is a finite map, so the order of its keys and of the reported paths is not modelled, and neither are names inherited from a prototype.
- ForkFiles.ForkRoot.Init: a web origin or a bundle identifier that is not a string counts as invalid; the program would convert it to text first.
- EnvSetup.InitializeFiles: the files already exist; copying the examples, the migration command and the doctor run are not modelled.
- Rendered.DeployedPassesIff: the manifest is the one with its references resolved; the rest of the Wrangler file, which the check does not read, is left out.
- AddressText.Ipv6Bytes: what `Number` makes of an octet that is not plain digits is an arbitrary function; case folding is ASCII. As in the code, octets may have leading zeros and `::` may stand for no group at all.
- Synthetic.RedeemedAtMostOnce: codes are assumed fresh, as random identifiers are.
- Synthetic.Gateway.OnRedeem: the refresh of a token, which looks at no code, is not modelled.
- Sse.SseReader.Next: no read times out, and decoding bytes to text is not modelled.
- Redirects.InspectPublicUrl: the abort timer appears only as a failed lookup or response; title, timing and other fields of the output are left out.
- Characters are Unicode scalars: lengths and the sort order of names outside the basic plane can differ from UTF-16 code units.
- `resolveEnvironmentReferences` and `parseWorkbenchEnvironment`: field-by-field work with no interplay.
- `validateLocalAgentPack` apart from the serializability walk: a long list of single-field checks.
- `parseVercelEnvironmentInventory` and `parseCloudflareEnvironmentInventory`: the providers are taken to tell what was configured.
- `pinnedRequestOptions`, `titleFrom` and the proxy of the gateway: request plumbing.
- The user interface, the mobile application, the control plane and its packages: not decided by these scripts.
- Smoke, acceptance and drill scripts other than the event reader: they assert on servers that are not here.
- Backup encryption, security audit filters, documentation and archive checks: single regular expressions or external tools.
