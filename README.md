# Instance-health selector

A Dafny model of the instance picker of telegram-nitter-fallback
(`utils/health.ts`). Given a list of Nitter mirror URLs, the picker probes all
of them at once and returns the first one that answers as a working instance
rather than as a bot-protection or rate-limit page. It returns null once every
candidate has answered unhealthy. Verdicts are cached per URL for five minutes.

The model has four modules, one per part of the picker, plus `Wrappers`
(an `Option` type):

- `BotDetection` (`bot_detection.dfy`) is the body test. It takes the first
  2048 characters of an ok response and searches them, ignoring ASCII case,
  for the four challenge-page phrases. `SearchFrom` and `ContainsAny` do the
  search. Each is proved equal to an existential reference ("the phrase
  matches at some position"). `BodyLooksHealthy` is then stated over the
  whole body: healthy exactly when no phrase occurs wholly inside the window.
- `Classification` (`classification.dfy`) is the probe outcome. The network's
  answer is an input: `Outcome = Failed | Response(status, body)`. `Failed`
  stands for any caught exception, including the timeout abort. `Classify`
  turns the answer into a verdict.
- `HealthCache` (`health_cache.dfy`) is the cache. `Probe` is one call of
  `checkInstanceHealth` as a function over the cache map. It gives the
  fresh-hit answer, overwrites the entry on a miss, and touches no other key.
  The class `HealthCache` holds the module-level `Map` as a `map` field.
  Its method `CheckInstanceHealth` updates that field in place and is proved
  equal to `Probe`. A ghost log `Probed` records which calls reached the
  network.
- `Selector` (`selector.dfy`) is `pickHealthyInstance`. The race is given as
  the order in which the probes settle. The callbacks are a fold (`Settle`,
  `Run`) over the shared state: the promise and `settledCount`. That fold is
  proved equal to a counter-free reference, `Expected`: the first healthy
  settlement wins; null comes only once every candidate has settled
  unhealthy; otherwise the promise is still pending.
  `PickHealthyInstance` is the loop. It runs each probe through the cache and
  then the callback (`OnSettled`).

The JavaScript regular expression's `i` flag upper-cases characters before
comparing them. It never maps a non-ASCII character to an ASCII one, and all
four phrases are ASCII. So ASCII case folding accepts exactly the bodies the
regular expression accepts. The clock (`Date.now()`) is a parameter.

For an empty candidate list `total` is 0 and no callback runs. The counter
is only compared after an increment, so the promise never resolves.
`PickHealthyInstance` returns the pending value `None` here. A probe need
never settle either: the timer is cleared once the headers arrive, so reading
an ok body has no time limit. `PickHealthyInstance` therefore takes the
probes settled so far, not necessarily all of them. The body is read whole,
and only its first 2048 characters are examined.

Some definitions are the source's own expressions and carry no contract of
their own. Their properties are stated by the members in the table:
- `HealthCache.IsFresh` and `HealthCache.FreshHit` are the freshness test
  (utils/health.ts:15); see `TtlBoundary` and `Probe`.
- `Classification.IsOk` is `response.ok`, a 2xx status
  (utils/health.ts:33); see `Classify` and `NonOkIgnoresBody`.
- `Selector.Pending` is the state before any callback runs: the promise
  unresolved and `settledCount` 0 (utils/health.ts:56-57).
- `Selector.Expected` is the counter-free reference for the selector;
  `BotDetection.MatchesAt`, `Contains` and `OccursInWindow` are the matching
  definitions.

## Model

| member | source | states |
|---|---|---|
| `BotDetection.SearchFrom` | utils/health.ts:40 | the search from position i succeeds iff the phrase matches, ignoring case, at some position k >= i |
| `BotDetection.ContainsAny` | utils/health.ts:40 | the alternation matches iff at least one of the phrases occurs in the text |
| `BotDetection.Sample` | utils/health.ts:39 | `slice(0, 2048)`: a prefix of the body of length min(2048, body length) |
| `BotDetection.SampleMatch` | utils/health.ts:39-40 | a match in the sample is exactly a match in the body that ends within the first 2048 characters |
| `BotDetection.SampleWindow` | utils/health.ts:39-40 | searching the sample is searching the 2048-character window of the body |
| `BotDetection.BodyLooksHealthy` | utils/health.ts:38-42 | an ok body is healthy iff none of the four phrases occurs, ignoring case, wholly inside the first 2048 characters |
| `BotDetection.CaseBlind` | utils/health.ts:40 | two bodies equal up to ASCII case get the same verdict |
| `BotDetection.TailIgnored` | utils/health.ts:39 | anything after the first 2048 characters never changes the verdict |
| `BotDetection.ChallengePageRejected` | utils/health.ts:40-42 | every body beginning "JUST A MOMENT" is judged unhealthy |
| `BotDetection.LateSignatureIgnored` | utils/health.ts:39-42 | any of the four phrases starting at index 2048, after a clean window, is not seen, whatever follows it |
| `BotDetection.NotFoundPageAccepted` | utils/health.ts:40-42 | the application error page "Tweet not found" is judged healthy |
| `Classification.Classify` | utils/health.ts:19-47 | a thrown error or timeout gives false; a non-ok status gives false; an ok response is healthy iff no phrase occurs in its 2048-character window |
| `Classification.NonOkIgnoresBody` | utils/health.ts:33-36 | with a non-ok status the verdict is false whatever the body is |
| `Classification.OkChallengeUnhealthy` | utils/health.ts:33-42 | any 2xx status with a body beginning "JUST A MOMENT" is unhealthy |
| `Classification.OkNotFoundHealthy` | utils/health.ts:33-42 | status 200 with "Tweet not found" is healthy |
| `HealthCache.TtlBoundary` | utils/health.ts:7-15 | an entry is fresh 299999 ms after it was taken and stale at exactly 300000 ms |
| `HealthCache.Probe` | utils/health.ts:10-48 | fresh hit: the cached verdict, cache unchanged, network ignored; otherwise: the classified outcome, whatever was cached, stored as {verdict, now} under its own key; no other key changes |
| `HealthCache.ProbeIdempotent` | utils/health.ts:11-17 | a second check at the same instant returns the same verdict and leaves the cache as the first left it, whatever the network would say |
| `HealthCache.HealthCache.constructor` | utils/health.ts:3-6 | the cache starts empty |
| `HealthCache.HealthCache.CheckInstanceHealth` | utils/health.ts:10-48 | updates the cache in place exactly as `Probe` says; logs a network request iff the entry was not fresh |
| `Selector.Settle` | utils/health.ts:61-69 | a resolved promise keeps its value; only unhealthy settlements are counted; null comes only from the unhealthy settlement that brings the count to total |
| `Selector.UnhealthyCount` | utils/health.ts:65 | the count is at most the number of settlements, with equality iff all are unhealthy |
| `Selector.FirstHealthy` | utils/health.ts:60-64 | reference: none iff no settlement is healthy; otherwise the instance of the first healthy settlement |
| `Selector.Run` | utils/health.ts:56-70 | the callbacks run in settlement order: `settledCount` grows by exactly the number of unhealthy settlements, and once resolved no further settlement changes the promise |
| `Selector.LaterSettlementsIgnored` | utils/health.ts:56-70 | settlements after the first resolution never change the result |
| `Selector.RunMatchesExpected` | utils/health.ts:56-71 | the callback counter machine equals the reference: first healthy, else null after total unhealthy, else pending |
| `Selector.FirstHealthyWins` | utils/health.ts:60-64 | the promise holds x iff x is the instance of the first healthy settlement |
| `Selector.FirstToSettleHealthyChosen` | utils/health.ts:60-64 | C healthy first, then A unhealthy, then B healthy: the result is C |
| `Selector.NullOnlyWhenAllUnhealthy` | utils/health.ts:57-68 | null iff total > 0 and all total candidates have settled unhealthy |
| `Selector.ProbeInOrder` | utils/health.ts:60-61 | one settlement per probe in completion order; keys never probed keep their entries; the cache gains exactly the probed keys |
| `Selector.CacheHoldsLastVerdict` | utils/health.ts:43-46 | after the probes, each probed key holds the verdict of its last settlement |
| `Selector.OnSettled` | utils/health.ts:61-70 | the callback updates the promise and the counter as `Settle` says |
| `Selector.SelectionResult` | utils/health.ts:54-71 | with the shuffle a permutation of the input and the settled probes drawn from it, the result is `Expected`, any chosen instance is one of the input, and an empty input stays pending |
| `Selector.PickHealthyInstance` | utils/health.ts:51-73 | runs each settled probe through the cache in completion order; the cache ends as `ProbeInOrder` says; the result is the first healthy instance, null only when all candidates settled unhealthy, else pending (always for an empty list) |

## Left out

- The HTTP request is not modelled. This covers `fetch`, the `AbortController`, the 5000 ms timer, `clearTimeout` and the User-Agent header. Its result is the `Outcome` input, and `Failed` covers every exception, including the abort. A probe that never settles is simply absent from the settled probes.
- `Date.now()` is a parameter. `Math.random` is not modelled: the shuffle is any permutation of the input, given as a parameter.
- Promise scheduling is not modelled. The completion order is a parameter, and probes are applied to the cache one at a time in that order. In JavaScript every cache lookup happens in the loop, before any probe writes. The two differ only when the same URL appears twice in one list.
- Concurrent writes to the shared cache are not modelled. They are treated as sequential.
- `URL.toString()` normalisation is not modelled. Cache keys are opaque strings.
- A Dafny `char` is a Unicode scalar value, so no surrogate code unit, paired or lone, can be a `char`. A JavaScript string is modelled with one `char` per UTF-16 code unit, each surrogate unit standing as some other non-ASCII character. This keeps the 2048-unit window and changes no match, because every phrase is ASCII.
- Selector.PickHealthyInstance: does not state what the cache's ghost `Probed` log holds after a selection. Only the cache map is specified.
- utils/health.js is an older compiled copy whose verdict is just the ok status. It is not part of this model.
