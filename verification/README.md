# Models and proofs for the HTTPS echo server

The repository is an HTTP echo and forwarding daemon. This project models the
parts of it that hold state or transform text, and proves what they keep:

- **Certificate cache** (`RefreshPolicy`, `Lru`, `CertCache`, `SequentialGets`,
  `Flights`, `FlightRuns`, `FlightTheorems`, `FlightTiming`, `FlightCache`,
  `FlightWitness`, `SoloGet`).
  `CertCache` is the cache in its own representation, a map from SNI to list
  element and a list of elements, updated in place and proved to act on the
  entry list as the functions of `Lru` do. `Flights` is the same cache under
  any number of concurrent `Get` calls: one step per locked section, per
  transition of the single-flight group and per start or end of the issuer,
  with a clock that only moves forward and an issuer that may never answer.
- **Forwarding** (`Text`, `Headers`, `Proxies`, `Forward`, `Percent`, `Paths`,
  `Urls`, `WirePaths`). Header relaying, the X-Forwarded-For chain over many
  hops, and path joining on decoded and on percent-encoded text, for one hop
  and for chains in which each hop parses what the last one sent.
- **Verbose trace** (`TraceFormat`, `TraceLegs`, `TraceExchange`,
  `TraceInputs`, `TracePrinter`, `TraceReader`). The printer, a parser for its
  format, the round trip between them, concurrent exchanges on one output, and a
  word-by-word reader of its lines.
- **Responses** (`Recorder`, `Bodies`, `Cors`, `Handler`, `HandlerAnswers`,
  `HandlerResults`, `HandlerText`). The recorder and the routes of `serve` with
  their response headers, driving the trace of `TraceExchange`, with int64
  arithmetic for the body limits; a table of the answers, and what the printed
  text says of them.
- **Signed cookies** (`Cookies`). Verification with the keyed digest as a
  parameter and the base64 and percent encodings written out.

`Common` and `Int64` hold shared helpers. `dafny verify dfyconfig.toml` checks
everything.

## Where the code differs from what is promised

Each of these is a proved statement; the member is named.

- A call that joins another call's flight may be answered with a cached
  certificate that was due for a refresh for as long as that call ran, because
  the flight looked it up before the call began
  (`FlightWitness.JoinerMayGetDueCertificate`). Whatever happens after a call
  enters the single-flight group, the certificate that a flight hands it was due
  when it began exactly when the flight it joined was then already storing or
  ending on a certificate chosen before and due by then
  (`FlightTiming.AnswerIsDueIff`); a certificate that is issued during the call
  is the issuer's affair.
- The vault refresh test doubles a lifetime in int64 nanoseconds. It decides
  "two thirds have elapsed" at every instant exactly for lifetimes from 0 up to
  but not including 2^62 ns, and for negative multiples of three down to -2^62
  (`RefreshPolicy.VaultTestIsExactIff`).
- `MaxBodySize + 1` wraps at 2^63 - 1, which configuration accepts; then the
  body reads as empty. Without forwarding the views of a request body agree with
  `MAX_BODY_SIZE` exactly below that value or for an empty body; with forwarding
  exactly if `MAX_BODY_SIZE` is below 2^40 or the body is at most that long,
  the fixed limit that stands where section 7.1 of `docs/specification.md` says
  there is none (`Bodies.RequestViewsAgreeIff`, `Bodies.RelayedIsWholeIff`).
- An informational status (100 to 199, except 101 over HTTP/1) that shaping
  admits is observed by log and metrics but is not the status delivered
  (`HandlerResults.StatusIsObservedAndDelivered`; a shaped 150 in
  `HandlerResults.ShapedInterimIsNotDelivered`).
- An upstream status below 100 makes net/http panic while the response is
  relayed, so that request is neither printed nor finished (`crashed` in
  `Handler.Handler.Serve`; a 99 in `HandlerResults.LowStatusCrashes`).
- A header value with a newline, such as a shaped Content-Type, prints as two
  headers, so two different responses have the same text
  (`TraceExchange.NewlineForgesHeader`). The output reads back as the flushed
  exchanges exactly if no text they were given holds a newline; bodies may hold
  any (`TracePrinter.OutputRecoversExchangesIff`). For an echo whose other texts
  hold none, the shaped content type decides
  (`HandlerResults.ShapedTypeDecidesReadBack`).
- Exchange numbers are distinct until the 64-bit counter has gone around
  (`TracePrinter.IdsAreDistinctIff`).
- An encoded slash where base and request path meet is kept by the raw path but
  trimmed from the decoded path, so the raw path is dropped and the escapes are
  not relayed as they came. A bare asterisk path below a base is escaped too
  (`Urls.RelayedByteForByteIff`). Over a chain of forwarders the request's own
  text never matters, only whether some base path ends in an encoded slash
  (`WirePaths.ChainIsByteForByteIff`).
- Joining paths is not associative for an empty path after a `/` base
  (`Paths.JoinIsAssociativeIff`).
- Without a peer address, the X-Forwarded-For chain is dropped when Connection
  names it (`Forward.WithoutPeerChainSurvivesIff`).
- A signed cookie with an empty value never verifies, and a cookie sent
  unescaped is not accepted when its value is changed by percent-decoding
  (`Cookies.EscapedCookieVerifiesIff`, `Cookies.PlainCookieVerifiesIff`).
- Section 7.1 of `docs/specification.md` lists the hop-by-hop headers without
  `Proxy-Connection`; the code removes it, and so does the model.

## Model

| member | source | states |
|---|---|---|
| RefreshPolicy.PoliciesAreMonotone | internal/tlsmgr/cache.go:43-45 | both refresh policies, once they demand a refresh of a leaf, keep demanding it, even where Go's clamping and wrapping change the arithmetic |
| RefreshPolicy.ExpiryMarginIsExact | internal/tlsmgr/cache.go:43-45 | the default policy is due exactly if less than five minutes remain, in exact arithmetic for every leaf and instant |
| RefreshPolicy.VaultTestIsExactIff | internal/tlsmgr/tlsmgr.go:162-167 | the int64 test equals 3·elapsed > 2·lifetime at every instant, if and only if the lifetime is in [0, 2^62) or a negative multiple of three not below -2^62 |
| RefreshPolicy.NotDueLeavesAThird | internal/tlsmgr/tlsmgr.go:162-167 | for lifetimes from 0 up to but not including 2^62 ns, a leaf that is not due has at least a third of its lifetime left before NotAfter |
| Lru.StoreKeepsWellFormed | internal/tlsmgr/cache.go:120-134 | a store keeps keys distinct and the size within the capacity |
| Lru.LookupKeepsWellFormed | internal/tlsmgr/cache.go:89-102 | a lookup keeps keys distinct and the size within the capacity |
| Lru.FindAfterLookup | internal/tlsmgr/cache.go:89-102 | a lookup reorders the list but every key still finds the entry it found |
| Lru.FindAfterStore | internal/tlsmgr/cache.go:120-134 | after a store each entry is found as before or was evicted, never both; the stored entry survives whenever the capacity is at least one |
| Lru.HitIsStore | internal/tlsmgr/cache.go:89-102 | a hit has the effect of storing the entry it finds again, without eviction |
| Lru.RunIsRecencyPrefix | internal/tlsmgr/cache.go:89-134 | after any run of lookups, stale lookups and stores the keys are the first `capacity` of all touched keys in recency order |
| Lru.CacheHoldsMostRecentlyTouched | internal/tlsmgr/cache.go:89-134 | a key is cached if and only if fewer than `capacity` distinct other keys were touched since its last touch, and that number is its list position |
| CertCache.CertCache.constructor | internal/tlsmgr/cache.go:37-48 | a new cache is empty, with map and list linked |
| CertCache.CertCache.Lookup | internal/tlsmgr/cache.go:89-102 | on the linked map and list: returns the certificate unless missing or due, and moves a hit to the front |
| CertCache.CertCache.LookupStale | internal/tlsmgr/cache.go:106-118 | returns the certificate unless missing or past NotAfter, whatever the policy says, and changes nothing |
| CertCache.CertCache.Store | internal/tlsmgr/cache.go:120-134 | replaces or pushes the entry in front, and cuts the list to the capacity, keeping map and list in bijection |
| CertCache.CertCache.Update | internal/tlsmgr/cache.go:123-127 | the branch for a cached key: its element is replaced in place and moved to the front, all other entries keep their order |
| CertCache.CertCache.Insert | internal/tlsmgr/cache.go:128-133 | the branch for a new key: pushed in front, then the oldest evicted down to the capacity |
| CertCache.CertCache.EvictOldest | internal/tlsmgr/cache.go:129-133 | the eviction loop ends, and leaves exactly the `capacity` front elements in list and map |
| CertCache.CertCache.RemoveOldest | internal/tlsmgr/cache.go:130-132 | removes the back element from the list and its key from the map, and keeps them linked |
| CertCache.CertCache.ToFront | internal/tlsmgr/cache.go:100 | moves one element to the front and keeps the order of all others |
| CertCache.CertCache.Fly | internal/tlsmgr/cache.go:57-75 | the flight function: a cached certificate wins over the issued one, a success is stored, a failure changes nothing |
| CertCache.CertCache.Fallback | internal/tlsmgr/cache.go:76-85 | a failed flight is answered with a stale certificate if staleOK and one is not past NotAfter, else with its error |
| CertCache.CertCache.Get | internal/tlsmgr/cache.go:52-86 | the answer and the new entry list of a Get that runs alone, for any three clock readings and any issuer outcome |
| CertCache.LinkedFinds | internal/tlsmgr/cache.go:18-19 | when map and list are linked, the map finds the entry that a search of the list finds |
| CertCache.LinkedCount | internal/tlsmgr/cache.go:129 | when map and list are linked they have the same size, so the loop test on the map bounds the list |
| SequentialGets.RequestsAreTouches | internal/tlsmgr/cache.go:52-75 | without refreshes, a sequence of Gets leaves the most recently requested keys, whatever the capacity |
| SequentialGets.IssuesIs | internal/tlsmgr/cache.go:52-75 | a Get that issues hands back and stores what it is issued; the answer and the cache of any other do not depend on the issuer |
| SequentialGets.IssuesIffForgotten | internal/tlsmgr/cache.go:52-75 | a request reaches the issuer if and only if its key was never requested or at least `capacity` distinct other keys were requested since |
| SequentialGets.SmallerCacheAlsoIssues | internal/tlsmgr/cache.go:52-75 | LRU inclusion: a request that reaches the issuer also does so with any smaller capacity |
| SequentialGets.LargerCacheIssuesNoMore | internal/tlsmgr/cache.go:52-75 | a larger capacity never causes more issues |
| Flights.LeadersStep | internal/tlsmgr/cache.go:57-75 | every step keeps the correspondence between keys with a flight and the calls that lead one |
| Flights.WaitersStep | internal/tlsmgr/cache.go:57-75 | every step keeps that a waiting call waits for a flight of its own key that runs or has ended |
| Flights.MissesStep | internal/tlsmgr/cache.go:57-75 | every step keeps the in-flight miss true until the leader's own store |
| Flights.WellFormedStep | internal/tlsmgr/cache.go:89-134 | every step keeps the shared cache's keys distinct and its size within the capacity |
| Flights.AdvanceShape | internal/tlsmgr/cache.go:52-86 | an advance changes only its own call, and how each phase changes the flight table and the ended flights |
| FlightRuns.ProvenanceStep | internal/tlsmgr/cache.go:52-118 | every step keeps that cached certificates, verdicts and answers trace back to an issue for the same key |
| FlightTheorems.ReachableCore | internal/tlsmgr/cache.go:52-134 | under any refresh policy the flight table, the waiting calls, the cache and the provenance of answers are right in every state that any schedule reaches |
| FlightTheorems.ReachableInv | internal/tlsmgr/cache.go:52-134 | and the in-flight misses too, when the policy keeps demanding what it once demanded |
| FlightTheorems.OneIssuePerKey | internal/tlsmgr/cache.go:57-75 | in every interleaving at most one issue per key is in progress |
| FlightTheorems.IssueStartsOnlyOnMiss | internal/tlsmgr/cache.go:57-62 | when an issue starts, every cached certificate of its key is due at that moment |
| FlightTheorems.StoresAreBounded | internal/tlsmgr/cache.go:57-75 | over every run the stores of a key number at most one plus its evictions plus its issues started over a due entry |
| FlightTheorems.FittingRunStoresOnce | internal/tlsmgr/cache.go:120-134 | if the distinct keys fit the capacity and no issue of a key started over a due entry, the key is stored at most once |
| FlightTheorems.ForcedOnlyWhenDue | internal/tlsmgr/cache.go:57-62 | an issue starts over a cached entry only when a certificate issued for that key has come due |
| FlightTheorems.FreshRunStoresOnce | internal/tlsmgr/cache.go:57-75 | if the distinct keys fit the capacity and no certificate issued for a key has come due, the key is stored at most once in the run |
| FlightTheorems.AnswersAreJustified | internal/tlsmgr/cache.go:52-118 | every answered certificate came from an issue for that key and, at its deciding instant, was just issued, or not due, or, after a failed flight with staleOK, not past NotAfter |
| FlightTheorems.ErrorIffNothingStale | internal/tlsmgr/cache.go:76-84 | a failed flight ends in an error if and only if staleOK is off or every cached entry of the key is past NotAfter at the check |
| FlightTheorems.VaultAnswersAreUnexpired | internal/tlsmgr/tlsmgr.go:106-113 | with the vault policy a certificate taken from the cache had not expired when it was chosen: a stale one always, any other if its own lifetime is below 2^62 ns |
| FlightTheorems.UnsharedAnswersAreTimely | internal/tlsmgr/cache.go:52-86 | a call that hits, leads its own flight or falls back to a stale entry gets a certificate chosen while it ran |
| FlightTiming.RidesStep | internal/tlsmgr/cache.go:57-75 | every step keeps a call bound to the flight it leads or joined, and that flight to a verdict settled before or coming later |
| FlightTiming.AnswerIsOlderThanCallIff | internal/tlsmgr/cache.go:57-86 | for a call about to enter the single-flight group and everything that follows: its certificate was chosen before it began if and only if the key's flight is then already storing or ending on a certificate chosen before that |
| FlightTiming.AnswerIsDueIff | internal/tlsmgr/cache.go:57-86 | for such a call answered by a flight, unless with a certificate issued since it began: the certificate was due when the call began, and ever after, if and only if the key's flight is then already storing or ending on an older certificate that is due by then |
| FlightWitness.JoinerMayGetDueCertificate | internal/tlsmgr/cache.go:57-61 | a schedule on which a call is answered by the flight of another call, with a cached certificate that was due from the time the call began |
| FlightTheorems.AdvanceMakesProgress | internal/tlsmgr/cache.go:52-86 | every enabled advance lowers the number of advances still needed |
| FlightTheorems.RunsAreBounded | internal/tlsmgr/cache.go:52-86 | a run takes at most eight advances per call, however calls interleave |
| FlightTheorems.NoDeadlock | internal/tlsmgr/cache.go:52-86 | an unanswered call can move, or the leader it waits for can |
| FlightTheorems.FinishedRunsAnswerEveryCall | internal/tlsmgr/cache.go:52-86 | a schedule that leaves nothing to advance has answered every call |
| FlightCache.CacheIsRun | internal/tlsmgr/cache.go:89-134 | in every interleaving the shared cache is what its locked sections leave when run one after the other |
| FlightCache.SharedCacheHoldsMostRecentlyTouched | internal/tlsmgr/cache.go:89-134 | in every interleaving the shared cache is exactly the `capacity` most recently touched keys, in order |
| SoloGet.SoloAdvance | internal/tlsmgr/cache.go:52-86 | every advance of a call that runs alone follows the steps of Get on the cache it found, with the clock readings and the issuer's answer of that call |
| SoloGet.AnsweredAloneIsGet | internal/tlsmgr/cache.go:52-86 | however the clock and a call alone move from a state without a flight of the key, once the call is answered, its answer and the cache are those of Get without concurrency for instants during the call and an answer of the issuer |
| SoloGet.GetIsASchedule | internal/tlsmgr/cache.go:52-86 | conversely every Get without concurrency, for any clock readings and issuer outcome, is a schedule in which only the clock and that call move |
| Text.TrimSpaceIs | internal/echo/proxies.go:67 | only space is trimmed from either end, and what is left neither begins nor ends with space |
| Text.SplitConcat | internal/echo/proxies.go:66 | splitting at a separator character cuts exactly there |
| Text.SplitWithout | internal/echo/proxies.go:66 | a text without the separator is one part |
| Text.JoinConcat | internal/forward/forward.go:105 | joining two lists puts one separator between their texts |
| Text.SpacesAre | internal/echo/proxies.go:67 | among the ASCII characters exactly tab, newline, vertical tab, form feed, carriage return and space are trimmed |
| Proxies.LastUntrustedIs | internal/echo/proxies.go:76-80 | the scan finds nothing if and only if every entry is trusted, and otherwise the entry behind which all are trusted |
| Proxies.ChainHolds | internal/echo/proxies.go:64-71 | the chain is made of the trimmed, non-blank parts between commas of the values |
| Proxies.ChainConcat | internal/echo/proxies.go:64-71 | the chain of two lists of values is their chains, in order |
| Proxies.ClientIpIs | internal/echo/proxies.go:73-81 | a peer that is not trusted, or without a chain, is the client; otherwise it is the address behind which all are trusted, and if that is trusted too it is the leftmost |
| Proxies.CollectChain | internal/echo/proxies.go:64-71 | the nested loops collect the trimmed non-empty entries of all values in order |
| Proxies.ScanBackwards | internal/echo/proxies.go:76-81 | the backward scan finds the last untrusted address, else the leftmost |
| Proxies.Resolve | internal/echo/proxies.go:61-82 | a peer that is not trusted is the answer whatever it claims; behind a trusted one with a chain it is the first untrusted address from the right, or the leftmost when all are trusted; the chain is returned only in that case |
| Proxies.JoinKeepsChain | internal/forward/forward.go:104-105 | parsing the values joined with a comma and a space gives the concatenated parses of the values |
| Proxies.AppendedPeerKeepsClient | internal/echo/proxies.go:73-81 | behind a trusted proxy that appended its peer, resolving gives what the proxy itself would resolve |
| Headers.CanonicalIffSameLetters | internal/forward/forward.go:145-149 | two header names are deleted alike if and only if they differ at most in letter case |
| Headers.CanonicalAt | internal/forward/forward.go:145-149 | position by position, the canonical form of a name is upper case at the start and after hyphens and lower case elsewhere |
| Headers.CanonicalIffInForm | internal/forward/forward.go:145-149 | a token is its own canonical form if and only if its letters are upper case exactly there |
| Headers.TokenCharsAre | internal/forward/forward.go:145-149 | the characters of names that are canonicalized, spelled out |
| Headers.LettersPair | internal/forward/forward.go:145-149 | the 26 letters and their upper-case forms, spelled out |
| Forward.RelayHeader | internal/forward/forward.go:143-156 | the result has exactly the headers that are neither hop-by-hop nor named by Connection, each with its values |
| Forward.DeleteListed | internal/forward/forward.go:146-150 | the inner loop deletes exactly the canonical names that one Connection value lists |
| Forward.RelayedIsUnique | internal/forward/forward.go:143-156 | that promise determines the relayed header set |
| Forward.RelayIsIdempotent | internal/forward/forward.go:143-156 | relaying a relayed header set changes nothing |
| Headers.SameFormIffSameLetters | internal/forward/forward.go:145-149 | any text is deleted like a given token name if and only if it differs from it at most in letter case |
| Forward.KeptIffUnlisted | internal/forward/forward.go:143-156 | a header whose name is upper case exactly at the start and after hyphens is kept, with its values, if and only if it is none of the nine fixed names and Connection lists its letters nowhere, whatever else Connection lists |
| Forward.RewriteHeader | internal/forward/forward.go:97-112 | the header set sent upstream: relayed, the peer appended to the whole chain, scheme and host filled in when empty |
| Forward.AppendPeer | internal/forward/forward.go:101-106 | with a peer, the header holds one value: all incoming values and the peer, joined; no other header changes |
| Forward.SetIfEmpty | internal/forward/forward.go:107-112 | an absent or empty header gets the value, any other keeps its own; no other header changes |
| Forward.ForwardingChangesOnlyForwarded | internal/forward/forward.go:97-112 | outside the three X-Forwarded headers exactly the hop-by-hop and named headers are gone, the rest is unchanged |
| Forward.ForwardingKeepsChain | internal/forward/forward.go:101-106 | the chain sent is the whole chain that came in, then the peer, even when Connection names the header |
| Forward.ForwardedHeadersAre | internal/forward/forward.go:101-112 | X-Forwarded-Proto and X-Forwarded-Host keep their values where they arrive non-empty and unlisted, and are the scheme and the host otherwise; with a peer, X-Forwarded-For is the incoming values and the peer, joined with a comma and a space |
| Forward.WithoutPeerChainSurvivesIff | internal/forward/forward.go:101-106 | without a peer the chain survives if and only if Connection does not name it or it was empty |
| Forward.EveryHopResolvesTheSameClient | internal/forward/forward.go:101-106 | through any number of forwarders with trusted addresses every hop resolves the client that the first hop resolves |
| Percent.UnescapeEscape | internal/echo/cookies.go:21-25 | percent-decoding undoes percent-encoding, for every byte string, for paths and for query components |
| Percent.EscapedByteIs | internal/echo/cookies.go:21-25 | which bytes travel as they are, and the two upper-case digits of the others, spelled out |
| Percent.HexDigitsAre | internal/echo/cookies.go:21-25 | the sixteen digits and their values, in both cases |
| Percent.UnescapeConcat | internal/forward/forward.go:170-177 | decoding a valid encoding followed by any text decodes piece by piece |
| Percent.LastToken | internal/forward/forward.go:165 | a valid encoding ends in one byte or one whole escape, and what precedes it is valid |
| Paths.JoinIsAssociativeIff | internal/forward/forward.go:158-167 | joining is associative if and only if it is not an empty path after a `/` base behind a base without trailing slash |
| Paths.JoinIsAtOneSlash | internal/forward/forward.go:158-167 | the joined path is the base without a trailing slash, one slash, and the path without a leading one; an empty side or a `/` base leaves the other as it is |
| Paths.ChainOfForwardersIsOne | internal/forward/forward.go:158-167 | for a non-empty path, any chain of forwarders sends the path that one forwarder with the joined base sends |
| Paths.JoinsAgreeIff | internal/forward/forward.go:172-178 | the joined raw path decodes to the joined decoded path if and only if no encoded slash stands where slashes are trimmed |
| Paths.JoinedDecodes | internal/forward/forward.go:165 | trimming plain slashes from valid encodings and joining them gives a valid encoding of the parts joined |
| Urls.EscapedPathDecodes | internal/forward/forward.go:177 | the escaped path of a URL always decodes to its path |
| Urls.EscapeJoin | internal/forward/forward.go:172-176 | without raw paths, the default encoding of the joined path is the joined default encodings |
| Urls.RelayedByteForByteIff | internal/forward/forward.go:169-178 | the path text on the wire is base and request text joined, escapes kept byte for byte, if and only if no encoded slash is trimmed and no bare asterisk has to be escaped |
| WirePaths.ReparsedText | internal/forward/forward.go:169-178 | parsing a rooted valid path text and encoding it again gives the same text |
| WirePaths.RfcPathIsWire | internal/forward/forward.go:169-178 | every rooted path of slashes, pchars and whole escapes (section 3.3 of RFC 3986) is such a text |
| WirePaths.MayStandIs | internal/forward/forward.go:177 | the characters that a raw path may hold, spelled out |
| WirePaths.HopIsWire | internal/forward/forward.go:172-178 | what a hop sends is again a rooted valid path text, and decodes to the joined decoded paths |
| WirePaths.HopIsByteForByteIff | internal/forward/forward.go:169-178 | one hop keeps the received text byte for byte, joined with its base, if and only if the base ends in no encoded slash |
| WirePaths.ChainIsByteForByteIff | internal/forward/forward.go:158-178 | through any number of forwarders the path text arrives as one forwarder with the joined base text would send it if and only if no base ends in an encoded slash |
| TraceFormat.LinesRecoverableIff | internal/verbose/verbose.go:115-145 | printed lines can be told apart again if and only if none holds a newline |
| TraceFormat.ClassifyPrefixed | internal/verbose/verbose.go:60-104 | the prefixes of the four legs never collide with each other, with the bare separator, or with informational lines |
| TraceFormat.LegLineIs | internal/verbose/verbose.go:115-145 | line by line what a leg prints, with the mark of its kind and the truncation line spelled out |
| TraceFormat.LegSegments | internal/verbose/verbose.go:115-145 | the separator alone equals the bare prefix, so head and body of a leg are told apart whatever they say |
| TraceFormat.ItemsRoundTrip | internal/verbose/verbose.go:60-145 | any readable sequence of legs and informational lines is parsed back from its lines |
| TraceFormat.ParsedItems | internal/verbose/verbose.go:60-145 | whatever lines the parser accepts are the lines printed for the items it returns |
| TraceFormat.ParseIsSound | internal/verbose/verbose.go:60-145 | what is read from a text prints the lines of that text, none of which holds a newline |
| TraceFormat.RenderRoundTripIff | internal/verbose/verbose.go:60-145 | a readable trace is parsed back from its text if and only if none of its lines holds a newline |
| TraceFormat.NewlineForgesField | internal/verbose/verbose.go:125-129 | in any leg, a value with a newline and a prefixed field text prints like two fields |
| TraceLegs.SortedListingIsUnique | internal/verbose/verbose.go:124 | there is one sorted listing of a set of names |
| TraceLegs.SortNames | internal/verbose/verbose.go:120-124 | whatever order the map yields its names in, the listing is that one |
| TraceLegs.LessIs | internal/verbose/verbose.go:124 | the order is lexicographic: the first difference decides, and a proper prefix comes first |
| TraceLegs.LegFieldsAreOrdered | internal/verbose/verbose.go:117-129 | the host is printed first, and the names of the other fields do not go down |
| TraceLegs.FieldsKeepValues | internal/verbose/verbose.go:125-129 | every header's values are recovered in order from the printed fields |
| TraceLegs.LegFieldsRecoverHeader | internal/verbose/verbose.go:117-129 | host and every header's values are recovered in order from the fields of a leg |
| TraceLegs.BodyIsRecovered | internal/verbose/verbose.go:137-141 | joining the printed body lines gives the body without one carriage return at each line end |
| TraceLegs.BodyIsExactIff | internal/verbose/verbose.go:137-141 | the body is recovered byte for byte if and only if no line of it ends in a carriage return |
| TraceExchange.Exchange.WriteSection | internal/verbose/verbose.go:115-145 | the text appended is that of one leg: first line, host and sorted fields, separator, body cut at maxBody, marker |
| TraceExchange.Exchange.WriteHead | internal/verbose/verbose.go:116-129 | the first line, the host when there is one, and the header fields under sorted names |
| TraceExchange.Exchange.WriteHeader | internal/verbose/verbose.go:120-129 | the loops over sorted names and their values print one line per value |
| TraceExchange.Exchange.WriteTail | internal/verbose/verbose.go:130-144 | the separator, the body lines and the marker when cut |
| TraceExchange.Exchange.WriteBody | internal/verbose/verbose.go:137-141 | the lines of a non-empty body, nothing for an empty one |
| TraceExchange.Exchange.Request | internal/verbose/verbose.go:60-72 | appends the text of the numbered request line and the client request leg |
| TraceExchange.Exchange.Forward | internal/verbose/verbose.go:75-78 | appends the forwarding line and the upstream request leg |
| TraceExchange.Exchange.ForwardResponse | internal/verbose/verbose.go:81-83 | appends the upstream response leg, without host |
| TraceExchange.Exchange.ForwardError | internal/verbose/verbose.go:86-88 | appends the error line |
| TraceExchange.Exchange.WebSocketUpgrade | internal/verbose/verbose.go:92-94 | appends the upgrade line |
| TraceExchange.Exchange.Response | internal/verbose/verbose.go:98-104 | appends the numbered status line and the client response leg with its trimmed status |
| TraceExchange.SectionIsOneLineIff | internal/verbose/verbose.go:115-145 | the lines of a section hold no newline if and only if first line, host and header values hold none; a body never matters |
| TraceExchange.SectionIsRecovered | internal/verbose/verbose.go:115-145 | from the text of a trace whose lines hold no newline one recovers, for any section in it, first line, host and header values in order, body up to maxBody, and whether it was cut |
| TraceExchange.NewlineForgesHeader | internal/verbose/verbose.go:125-129 | two different header sets, one with a newline in a value, give sections with the same text |
| TraceInputs.RequestIsOneLineIff | internal/verbose/verbose.go:60-72 | what a request prints holds no newline within a line if and only if none of its texts, the body apart, holds one |
| TraceInputs.EntryIsOneLineIff | internal/verbose/verbose.go:75-104 | the same for every other writer |
| TraceInputs.FieldNamesArePlain | internal/verbose/verbose.go:117-129 | the field names of a section hold no colon when the header names hold none |
| TraceExchange.DecimalIsInjective | internal/verbose/verbose.go:69 | different numbers print differently |
| TraceReader.DecimalReads | internal/verbose/verbose.go:69 | a number prints as digits without a leading zero whose positional value it is |
| TraceReader.RequestInfoReads | internal/verbose/verbose.go:60-69 | split at its spaces, the request line gives back number, address, scheme, protocol, TLS version and server name, for texts without spaces |
| TraceReader.RequestLineReads | internal/verbose/verbose.go:70-71 | the first line of a request gives back method, URI and protocol |
| TraceReader.ResponseInfoReads | internal/verbose/verbose.go:99-100 | the response line gives back number, code and milliseconds, whatever they are |
| TraceReader.StatusLineReads | internal/verbose/verbose.go:101-103 | the status line gives back protocol, code and status text |
| TraceReader.PairReads | internal/verbose/verbose.go:77-82 | an upstream first line gives back its first word and the rest |
| TraceExchange.RequestTextShowsId | internal/verbose/verbose.go:69 | request lines with different exchange numbers differ, whatever else they say |
| TracePrinter.OutputIsFlushedExchanges | internal/verbose/verbose.go:55-111 | in every interleaving, whatever is printed, the output is the text of the flushed exchanges, whole, in flush order, each once, and their items fall apart at the request lines |
| TracePrinter.OutputRecoversExchangesIff | internal/verbose/verbose.go:55-145 | the output reads back as exactly those exchanges if and only if none of the texts they were given, bodies apart, holds a newline |
| TracePrinter.OutputRecoversSection | internal/verbose/verbose.go:55-145 | end to end: from such an output one recovers, for any section of any flushed exchange, first line, host and header values, body up to maxBody and line-end carriage returns, and whether it was cut |
| TracePrinter.WriteKeepsBlock | internal/verbose/verbose.go:75-104 | every writer keeps an exchange readable and with a single request line, whatever it prints |
| TracePrinter.SplitConcatenated | internal/verbose/verbose.go:107-111 | concatenated exchanges are cut apart again at their request lines |
| TracePrinter.IdsAreDistinctIff | internal/verbose/verbose.go:55-57 | exchange numbers are pairwise distinct if and only if at most 2^64 exchanges were started |
| TracePrinter.NumberIs | internal/verbose/verbose.go:55-57 | the first exchange is number one and each next one counts on, until the counter wraps to zero |
| Recorder.Recorder.constructor | internal/server/recorder.go:26-28 | a new recorder has observed and captured nothing |
| Recorder.Recorder.WriteHeader | internal/server/recorder.go:30-37 | the first code is recorded and passed on, later ones change nothing |
| Recorder.Recorder.Write | internal/server/recorder.go:39-51 | settles 200 if nothing was settled, keeps at most bodyCap bytes, and passes all bytes on |
| Recorder.Recorder.Abandon | internal/server/recorder.go:55-60 | records a status, if none is settled, without touching the wire |
| Recorder.CaptureIsPrefix | internal/server/recorder.go:39-51 | however a body is split into writes the copy is its first bodyCap bytes, and the wire gets all of it |
| Recorder.FirstCallDecides | internal/server/recorder.go:30-68 | over any run of calls the first one settles the observed status, and at most one header reaches the wire |
| Recorder.ObservedIsDeliveredIff | internal/server/recorder.go:63-68 | the observed status is the delivered one if and only if the first call is no interim header and no abort other than of 200 |
| Bodies.LimitedViewsAgreeIff | internal/server/handler.go:414-419 | for every body and limit, the capped view of what was read is the promised view of the body if and only if nothing was cut or the limit exceeds maxBodySize; the dumped view is the same |
| Bodies.RequestViewsAgreeIff | internal/server/handler.go:378-384 | for every body, echoed and dumped view show its first maxBodySize bytes and flag a longer one if and only if maxBodySize + 1 fits int64 or the body is empty; when forwarding, if and only if maxBodySize or the body stays within 2^40 |
| Bodies.RequestViewsAlwaysAgreeIff | internal/server/handler.go:378-384 | so they do for every body at once if and only if maxBodySize is below 2^63 - 1, or below 2^40 when forwarding |
| Bodies.RelayedIsWholeIff | internal/server/handler.go:379-382 | the relayed body is the whole request body if and only if it is at most 2^40 bytes |
| Bodies.ResponseViewAgreesIff | internal/server/handler.go:66-68 | for every body, the dumped response body shows its first maxBodySize bytes and flags a longer one if and only if maxBodySize + 1 fits int64 or the body is empty |
| Handler.Handler.Serve | internal/server/handler.go:99-154 | every request that does not crash is finished once, with the status observed after its calls and the forward object; its wire state is that of its calls, its response headers are those of its route, and it prints the text of its exchange once, under the next number |
| Handler.Handler.HandleWebSocket | internal/server/ws.go:16-39 | an upgrade prints the request leg with an empty body and the upgrade line, and is finished once with the status observed |
| Handler.Handler.Exchange | internal/server/handler.go:125-153 | the part after the body is read: forward or echo, then print the exchange, then finish |
| Handler.Handler.Print | internal/server/handler.go:149-152 | the response leg is added with the observed status, the headers and the captured body, and the whole block is written once |
| Handler.Handler.HandleForward | internal/server/handler.go:158-205 | relays status, headers and body, or answers 502 with the JSON message while logging the bare error; adds the upstream legs to the trace; panics exactly for codes that net/http refuses, before anything is sent |
| Handler.Handler.TraceUpstream | internal/server/handler.go:167-174 | adds the forwarded request, then the reply or the error |
| Handler.Handler.CopyHeader | internal/server/handler.go:198-201 | in whatever order the map yields them, all reply headers are copied |
| Handler.Handler.HandleEcho | internal/server/handler.go:210-260 | sets the granted headers, answers a preflight with 204, aborts with 499 when the client left, else sets the content type and sends the shaped status and the chosen body |
| Handler.Handler.ChooseBody | internal/server/handler.go:232-250 | which body is echoed, and whether it is JSON |
| Cors.Apply | internal/server/handler.go:264-305 | the headers set are exactly those granted, name by name, and a preflight is answered if and only if it asks for a method with OPTIONS |
| Cors.GrantOrigin | internal/server/handler.go:265-283 | the loop over the allow-list grants the origin, with Vary, if and only if it is listed |
| Cors.GrantsDetermine | internal/server/handler.go:264-305 | the grants determine the header set |
| Cors.OriginIsAllowedIff | internal/server/handler.go:265-283 | Access-Control-Allow-Origin is set if and only if all origins are allowed or the request's own is listed, with that value; credentials only with it; Vary only for a listed one |
| Cors.PreflightIsGranted | internal/server/handler.go:285-297 | methods and headers are granted to preflights only, with the configured values or the defaults |
| Handler.TraceItems | internal/server/handler.go:136-152 | a traced exchange prints its request, its upstream legs and its response, in that order |
| HandlerAnswers.AuthorityAnswers | internal/server/handler.go:110-117 | the CA path is answered with 200, the PEM text and its type |
| HandlerAnswers.MetricsAnswers | internal/server/handler.go:104-109 | on the metrics path the delegated calls, and only they, reach the wire |
| HandlerAnswers.UpgradeAnswers | internal/server/handler.go:119-123 | an upgrade makes its own calls, even when other requests are forwarded |
| HandlerAnswers.UnreadableAnswers | internal/server/handler.go:125-131 | a body that cannot be read is answered with 400, the error and its type |
| HandlerAnswers.PreflightAnswers | internal/server/handler.go:285-302 | a preflight is answered with 204, no body and the granted headers |
| HandlerAnswers.LeftClientAnswers | internal/server/handler.go:225-230 | a client that left is observed as 499, and nothing reaches the wire |
| HandlerAnswers.EchoAnswers | internal/server/handler.go:210-260 | an echo is answered with a shaped code from 200 to 599 (or 101 over HTTP/1), with 200 for a missing or other one, and with 200 while an interim one is observed; its body is nothing, the file, the request's own body or the rendered echo |
| HandlerAnswers.EchoTypeIs | internal/server/handler.go:252-257 | the content type of an echo is the shaped one, JSON for a rendered echo, none otherwise |
| HandlerAnswers.ReplyIsRelayed | internal/server/handler.go:198-204 | a reply is relayed whole, status, headers and body; the request crashes if and only if its code is below 100 or above 999 |
| HandlerAnswers.FailureAnswers | internal/server/handler.go:177-185 | a remote failure is answered with 502 and the JSON message |
| HandlerAnswers.LogIs | internal/server/handler.go:342-367 | reserved are exactly the metrics and CA paths, a forward object is logged exactly for forwarded requests, and the status is the settled one or 200 |
| HandlerAnswers.TracedIff | internal/server/handler.go:136-152 | printed is, in verbose mode, every upgrade and every other unreserved request whose body was read |
| HandlerResults.HeaderWrittenAtMostOnce | internal/server/handler.go:99-154 | on every route the underlying header is written at most once |
| HandlerResults.StatusIsObservedAndDelivered | internal/server/handler.go:99-260 | the observed status is the code sent; it is delivered if and only if it is no interim code; an aborted request leaves the wire untouched and is observed as 499 |
| HandlerResults.ShapedInterimIsNotDelivered | internal/server/handler.go:215-222 | a shaped 150 is observed while 200 is delivered |
| HandlerResults.LowStatusCrashes | internal/server/handler.go:202 | an upstream status of 99 crashes the request |
| HandlerResults.TraceShowsPromisedViewsIff | internal/server/handler.go:136-152 | a traced exchange holds the code sent, and the promised views of the request body and of the bytes sent if and only if the limits above allow it |
| HandlerResults.UpstreamViewsAgree | internal/server/handler.go:167-191 | the upstream legs hold the request body as the client leg does, and the reply as promised, and the log shows the same of the reply, whatever the limits |
| HandlerResults.PrintedTextReadsBackIff | internal/server/handler.go:136-152 | the text that a served request prints reads back as its exchange if and only if none of its texts, bodies apart, holds a newline |
| HandlerResults.PrintedTextShowsExchange | internal/server/handler.go:136-152 | from such a text one reads, word by word, the number, the code sent and the time, and the promised views of the request body and of the bytes sent wherever the limits allow them |
| HandlerText.PrintedTextShowsRequest | internal/server/handler.go:137-140 | from such a text one reads number, address, scheme, connection, method, URI, host and headers of the request |
| HandlerText.PrintedTextShowsResponseHeader | internal/server/handler.go:149-152 | from such a text one reads every response header's values |
| HandlerText.PrintedTextShowsUpstream | internal/server/handler.go:167-174 | from the text of a forwarded request one reads target, method, host, headers and body sent upstream, and protocol, status, headers and body of the reply, or the error |
| HandlerText.PrintedTextShowsUpgrade | internal/server/ws.go:19-24 | from the text of an upgrade one reads the request, without a body, and that it upgraded |
| HandlerResults.EchoHeaderIsOneLineIff | internal/server/handler.go:252-257 | the echo's header values hold no newline if and only if the shaped content type holds none or is not set |
| HandlerResults.ShapedTypeDecidesReadBack | internal/server/handler.go:223-257 | for an echo whose other texts hold no newline, the printed text reads back if and only if the shaped content type holds none or is not set |
| HandlerResults.BodyOnlyReturnsPromisedBodyIff | internal/server/handler.go:246-247 | with response_body_only the client gets the first maxBodySize bytes of its own body if and only if maxBodySize + 1 fits int64 or it sent none |
| Cookies.Base64 | internal/echo/cookies.go:50 | a signature contains no dot and no percent sign |
| Cookies.Base64RoundTrip | internal/echo/cookies.go:50 | looking every character up in the alphabet of section 4 of RFC 4648 gives back exactly the bytes |
| Cookies.Base64Length | internal/echo/cookies.go:50 | a signature takes (4n + 2) / 3 characters for n bytes |
| Cookies.SignatureTellsDigest | internal/echo/cookies.go:47-52 | two digests with the same signature are equal |
| Cookies.LastDotIs | internal/echo/cookies.go:30-34 | splitting at the last dot finds the end of the payload, whatever dots the payload holds |
| Cookies.VerifiesIffSigned | internal/echo/cookies.go:19-35 | a cookie verifies for a payload if and only if its decoded value is that non-empty payload with its own signature |
| Cookies.CookieIsGenuineIff | internal/echo/cookies.go:19-52 | a cookie verifies for a payload if and only if its decoded text is `s:`, the non-empty payload, a dot, and the base64 text that decodes to the digest of that payload under the secret |
| Cookies.DecodedIs | internal/echo/cookies.go:20-25 | the value is decoded once when it holds a percent sign and decodes, and taken as it is otherwise |
| Cookies.EscapedCookieVerifiesIff | internal/echo/cookies.go:20-42 | a signed value, escaped once, verifies to exactly that value if and only if it is not empty |
| Cookies.PlainCookieVerifiesIff | internal/echo/cookies.go:20-25 | sent unescaped it verifies if and only if it is not empty and holds no percent sign or a malformed escape |
| Cookies.VerifySignedCookies | internal/echo/cookies.go:16-43 | the result maps exactly the names with a verifying cookie, each to the payload of its last verifying cookie |
| Cookies.LastVerifiedIsLast | internal/echo/cookies.go:35-40 | of several signed cookies of one name the last one stands in the result |
| Cookies.NeverVerified | internal/echo/cookies.go:27-35 | a name none of whose cookies is signed is absent |

## Left out

- Locking: each section under a mutex is one step; what Go's memory model needs for that is assumed.
- The single-flight group of golang.org/x/sync is modelled by its contract: one running call per key, joiners get the same value and error, the key is forgotten when the call ends. Panics inside a flight are not modelled.
- List elements are handles with their values in a map, so pointer identity is modelled but memory reuse is not; a leaf certificate that does not parse counts as a failed issue.
- The cache capacity is a natural number; configuration refuses values below one.
- CertCache.CertCache.Get: the Get without concurrency; concurrent calls are in `Flights`.
- FlightTheorems.FinishedRunsAnswerEveryCall: says nothing about calls whose issuer never returns, which may wait for ever.
- Clock readings, issued certificates, error texts, elapsed times and status texts are inputs, and so are the monotonic parts of Go's clock.
- Issuing itself (autoca, the Vault client, X.509, TLS) is left out.
- Proxies.Resolve: takes the peer text that `PeerIP` yields, because splitting host and port is the standard library's; which addresses are trusted is an arbitrary predicate instead of a list of prefixes.
- Forward.EveryHopResolvesTheSameClient: the wire between hops keeps the X-Forwarded-For values, and peers have a non-empty address without commas or surrounding space.
- Header names are kept in canonical form as net/http keeps them; the nine fixed hop-by-hop names are spelled canonically, as in the source.
- The upstream exchange in `Do`, request construction errors, the query, the fragment and the scheme are left out, and so is the leading slash that URL.String adds when a path has none.
- WirePaths.ChainIsByteForByteIff: for rooted request paths and for base paths that are empty or rooted, which is what net/http and url.Parse yield for URLs with a host; a request text that is no valid encoding is re-encoded by its first hop and is valid from there.
- Texts are byte strings where the code works on bytes; Unicode decoding is left out.
- TracePrinter.OutputRecoversExchangesIff: header names hold no colon and no newline, which net/http guarantees for every header set that reaches the printer; and the remote response is written directly after the forwarded request, as the handler does.
- The writer behind the printer takes every block whole; its errors are ignored as in the source.
- Handler.Handler.Serve: the metrics handler and the WebSocket upgrade are arbitrary sequences of calls on the recorder, whose own headers, and the messages after an upgrade, flushing and hijacking, are left out.
- Handler.Handler.HandleWebSocket: up to its `finish`; the mirrored messages are left out.
- Handler.Handler.HandleForward: the reply's headers are those that `Forward.RelayHeader` keeps, and the JSON message is an input, as is every rendered JSON text.
- FlightTheorems.UnsharedAnswersAreTimely: says nothing about calls that join another call's flight; `FlightTiming.AnswerIsOlderThanCallIff` decides those.
- The parsing of shaping values and delays, the JSON rendering of an echo, and the rest of the log record are inputs or left out; a preflight never waits for the delay, and an aborted delay is an input.
- Body claims are about bytes passed to `Write`; that net/http sends none for HEAD, 204 and 304 is not modelled.
- Cookies.VerifySignedCookies: the keyed digest is an arbitrary function from payload and secret to bytes, and the comparison in constant time is plain equality; parsing the Cookie header is left out.
- Configuration, listeners, shutdown, metrics, logging, JWT decoding and client certificate formatting are left out: they wire libraries together.
