# Conduit verification model

A Dafny model of the stateful and algorithmic cores of the Conduit commerce repository, with proofs
about every input, every run or every interleaving. `dafny verify dfyconfig.toml` checks it all.

| files | what they model |
|---|---|
| `RelayEvents`, `RelayStore`, `RelayQuery`, `RelayEventStore` | the development relay's event store: replacement, convergence, ranked and limited reads, and its class |
| `RelaySession`, `RelayPromises`, `RelayReplies`, `RelayLog`, `RelayServer` | the relay as a state machine over any number of connections: gift-wrap reads behind authentication, the append-only log and restarts, and the handlers |
| `PricingCache`, `PricingCalls`, `PricingRaces`, `PricingCacheClass` | the signer's refresh-when-stale pricing cache, each `await` an interleaving point, how every call ends, and what a second-level store changes |
| `AddressRegistry`, `AddressManagement`, `AddressRequests`, `AddressPromises`, `RequestPromises`, `AddressTables`, `AddressGateway` | the address gateway's approved-name registry and its two protocols over three database tables, each SQL statement one atomic step, and the handlers that take those steps in place |
| `RateLimiter` | the windowed limiter of client-error telemetry |
| `Base64Url`, `ConstantTime`, `AuthorizationTokens` | base64url, accumulating comparison, checkout tokens and the two secret checks |
| `Ipv4`, `Ipv6` | address text, octets and prefixes, and the public ranges |
| `Shuffle` | the in-place Fisher-Yates shuffle of loading messages |
| `BundleCensus` | reachability and conserved totals of the start-up bundle census |
| `Json`, `IngestSanitizer`, `IngestPromises` | the telemetry proxy's idempotent payload sanitizer, and exactly what it forwards |
| `FormEncoding`, `CheckoutIntents`, `CheckoutPromises`, `CheckoutLinks` | form encoding, exactly which fragments are read, and the checkout links that are built and read back |
| `PartnerRegistry`, `CheckoutAttribution` | the partner registry and attribution against its own validators |
| `Text`, `Sequences`, `Wrappers` | strings, sequences without repetition, result shapes |

Code that updates state in place is a class or a method proved against a specification function;
the promises are lemmas about that function. Signatures, hashes, HMAC, JSON, UTF-8 beyond ASCII,
naddr references, domain names, the URL parser and dates are function parameters. The few facts
assumed of them are the predicates named `Sound...` and `CollisionFree`: determinism, round trips,
and ids and hashes that identify their content. Of the pricing cache's surroundings `StampedInside`
and `OwnEntries` say that quotes are stamped with the time they are fetched and that what carries
the service's signature was made by it. Clocks, random draws, replies from other services
and configuration are parameters too.

Where the code does less than its names and comments suggest, the model follows the code:

- The cache's coverage guard compares with the snapshot captured at the start of a refresh, and an
  adopted store entry is compared with nothing, so with a second-level store coverage and `fetchedAt`
  can go back; `PricingRaces` proves exactly when.
- A domain can resolve through a registry entry that is neither active nor has an account, if another
  entry makes its code active; `PartnerRegistry.LiveResolutionIff` says exactly when none does.
- A pinned token that lacks a token's form makes the sanitizer reject its own output
  (`IdempotentIffPinIsUsable` is an equivalence, `PersonalKeyBreaksIdempotence` an input).

## Model

| member | source | states |
|---|---|---|
| `RelayEvents.KeysNameSlots` | scripts/dev/relay_bun.ts:248-257 | For events with well-formed keys, two replacement keys are equal exactly when kind and author (and, for addressable kinds, the d tag) are: the text key never confuses two slots. |
| `RelayEvents.NewerIsStrictOrder` | scripts/dev/relay_bun.ts:259-267 | Replacement is a strict order, total on different ids: newest wins and the lowest id breaks ties (NIP-01, 'Kinds'). |
| `RelayStore.StoreAllInvariant` | scripts/dev/relay_bun.ts:280-306 | After any arrivals the replacement index and the visibility map agree with the event map, and everything that arrived is held or outranked in its slot. |
| `RelayStore.StoreKeepsExactlyTheSurvivors` | scripts/dev/relay_bun.ts:280-306 | The store holds exactly the survivors: every valid regular event, no ephemeral one, and for each replacement key the greatest; the index names exactly those. |
| `RelayStore.StoreConverges` | scripts/dev/relay_bun.ts:280-306 | Two sequences with the same set of arrivals, in any order and with any repetition, end with the same ids, contents and replacement index. |
| `RelayStore.ResendingChangesNothing` | scripts/dev/relay_bun.ts:280-306 | An event that arrived before, held or superseded, leaves the whole store unchanged, visibility time included, and is not reported as stored. |
| `RelayStore.SignaturesConvergeIff` | scripts/dev/relay_bun.ts:280-306 | All sequences with a given set of arrivals end with equal events, signatures included, if and only if no two surviving arrivals share an id and differ. |
| `RelayStore.SignatureDependsOnOrder` | scripts/dev/relay_bun.ts:280-284 | Two valid copies of one event that differ in the signature alone, under a verifier the theorems speak of: whichever arrives first stays, so the orders of their arrivals do not agree. |
| `RelayPromises.IdentifiersAreHex` | scripts/dev/relay_bun.ts:67 | Identifiers are exactly the strings of 64 of the sixteen lower-case hexadecimal digits. |
| `RelayPromises.DTagIsFirst` | scripts/dev/relay_bun.ts:252-255 | The d value is that of the first tag named d, and empty if it or its value is missing. |
| `RelayPromises.CompeteByKey` | scripts/dev/relay_bun.ts:248-257 | Two events compete for one key exactly when they are of one author and of one replaceable kind (0, 3, 10000-19999), or of one addressable kind (30000-39999) and d value. |
| `RelayPromises.LessPrecedes` | scripts/dev/relay_bun.ts:259-267 | Ids are compared as prefixes, or by the first character in which they differ. |
| `RelayPromises.StoreHoldsWhatLasts` | scripts/dev/relay_bun.ts:280-306 | After any arrivals exactly those events are held, each under its id, that are verified, not ephemeral (20000-29999) and outranked by no verified arrival they compete with: newer, or as new with a lower id. |
| `RelayPromises.RelayHoldsWhatLasts` | scripts/dev/relay_bun.ts:418-514 | At every moment of every run of a persistent relay, restarts included, it holds exactly what lasts in that sense among the welcome events of its first log and of its clients, unless writes are rejected. |
| `RelayPromises.MatchesMeets` | scripts/dev/relay_bun.ts:182-218 | A filter matches exactly the events that meet each of its fields: an id and an author by prefix, a kind, both time bounds, and for each named tag with values a tag of that name with one of them. |
| `RelayPromises.ReadsAreExact` | scripts/dev/relay_bun.ts:308-336 | A full read is exactly the visible events, newest first and then by id, that meet some filter and have fewer than its limit of its matches before them; a partial read is that up to its limit. |
| `RelayQuery.IdentifierFiltersAreExact` | scripts/dev/relay_bun.ts:82-196 | With the 64-digit identifiers that a parsed filter may hold, matching by prefix is exact: an event matches an id or author list exactly when it holds that id or author. |
| `RelayQuery.BeforeIsStrictOrder` | scripts/dev/relay_bun.ts:317-321 | Results are ordered by created_at descending, then id: a strict order, total on different ids. |
| `RelayQuery.RankingUnique` | scripts/dev/relay_bun.ts:317-331 | A set of events has only one strictly ordered listing, so a sorted answer is determined by its set. |
| `RelayQuery.RankIsPosition` | scripts/dev/relay_bun.ts:317-325 | The position of an event in a ranking is the number of events ahead of it, which is what slicing by a limit cuts on. |
| `RelayQuery.SortRanks` | scripts/dev/relay_bun.ts:317-331 | Sorting a list without repeated ids gives the ranking of its elements. |
| `RelayQuery.LimitedRanking` | scripts/dev/relay_bun.ts:315-325 | Cutting one filter's ranked matches to its limit keeps exactly the matching visible events with fewer than `limit` matches ahead. |
| `RelayQuery.ReadUnique` | scripts/dev/relay_bun.ts:308-336 | A read is determined by the store, the filters, the partial limit and the clock. |
| `RelayQuery.ReadMeaning` | scripts/dev/relay_bun.ts:308-336 | A read is strictly ordered; each result is visible and matches a filter; whatever a filter leaves out of a full read has that filter's whole limit ahead of it (so without limits nothing is left out); a partial read is a prefix of the full one. |
| `EventStore.RelayEventStore.constructor` | scripts/dev/relay_bun.ts:269-274 | A new store is empty. |
| `EventStore.RelayEventStore.Store` | scripts/dev/relay_bun.ts:280-306 | The in-place store updates its three maps and reports its status exactly as the specification function says. |
| `EventStore.RelayEventStore.VisibleEvents` | scripts/dev/relay_bun.ts:308-311 | Collects exactly the visible events, each once. |
| `EventStore.RelayEventStore.RankedMatches` | scripts/dev/relay_bun.ts:315-325 | For one filter, returns exactly what that filter picks. |
| `EventStore.RelayEventStore.AddNew` | scripts/dev/relay_bun.ts:326 | The de-duplicating map ends with the union of what it had and what was added, without repeated ids. |
| `EventStore.RelayEventStore.Query` | scripts/dev/relay_bun.ts:308-336 | The loops of the query, reading the clock once for each event, return the one read of the store (see ReadUnique and ReadMeaning). |
| `RelayServer.ClassifyProtectedRead` | scripts/dev/relay_bun.ts:220-246 | The two loops reach the plan of the specification: public, invalid, or protected for one common recipient. |
| `RelaySession.PlanGuardsGiftWraps` | scripts/dev/relay_bun.ts:220-246 | If an accepted plan lets a filter match a kind-1059 event, the plan is protected and a tag of the event starts with p and its recipient. |
| `RelaySession.AuthorityIsExplained` | scripts/dev/relay_bun.ts:590-625 | In every run, a connection's identity was proved, in the sense of ProofsAreAccepted, by an earlier AUTH against that connection's own challenge. |
| `RelaySession.ProofsAreAccepted` | scripts/dev/relay_bun.ts:590-625 | In every run an AUTH is accepted, and its key taken on, exactly when it is a verified event of kind 22242 without content or empty tags, within 600 seconds, with a tag that starts with challenge and this connection's challenge and one that starts with relay and this relay's address; otherwise nothing changes. |
| `RelaySession.ChallengesAreTheirOwn` | scripts/dev/relay_bun.ts:648-660 | Every connection keeps the challenge it was opened with. |
| `RelaySession.IdentitiesStay` | scripts/dev/relay_bun.ts:590-625 | Only an AUTH of its own changes the identity of a connection that stays open. |
| `RelaySession.SubscriptionsAreExplained` | scripts/dev/relay_bun.ts:516-588 | In every run, a held subscription was accepted by an earlier REQ with those filters and has not been ended since. |
| `RelaySession.SubscriptionsStay` | scripts/dev/relay_bun.ts:516-588 | Conversely, an accepted subscription is held for as long as nothing ends it. |
| `RelaySession.BroadcastExact` | scripts/dev/relay_bun.ts:446-454 | A broadcast sends exactly one kind of frame: the event, on each open subscription one of whose filters matches. |
| `RelaySession.RunFrameOrigin` | scripts/dev/relay_bun.ts:446-588 | Every EVENT frame of a run is from a read just accepted or from a broadcast to a subscription open at that moment. |
| `RelaySession.GiftWrapSubscription` | scripts/dev/relay_bun.ts:446-588 | Every EVENT frame goes out on a subscription accepted at some step, in force ever since, whose filters match the event. |
| `RelaySession.GiftWrapsReachOnlyTheirRecipients` | scripts/dev/relay_bun.ts:446-625 | In every run over any connections and fault mode, each EVENT frame with a kind-1059 event goes out on a subscription still in force that was accepted while its connection held the key that a p tag of the event names, after proving it by an answer to its own challenge. |
| `RelayPromises.RequestsAreServed` | scripts/dev/relay_bun.ts:516-588 | In every run a REQ is served exactly when all its filters parse and none can match a gift wrap, or all ask for those of the one key the client holds: the named subscription is held, every event of its read is sent in order, and EOSE ends it; otherwise nothing changes and it is closed. |
| `RelayPromises.ActionsHappen` | scripts/dev/relay_bun.ts:446-720 | Whatever is sent on an open connection has an answer, and every due timer can fire. |
| `RelayServer.RelayServer.constructor` | scripts/dev/relay_bun.ts:423-437 | Start-up replays every valid line of the log into an empty store when persistence is on, and starts empty otherwise. |
| `RelayServer.RelayServer.Broadcast` | scripts/dev/relay_bun.ts:446-454 | The nested loops send exactly the specified frames, in order. |
| `RelayServer.RelayServer.StoreEvent` | scripts/dev/relay_bun.ts:481-482 | Stores with the visibility delay of the fault mode. |
| `RelayServer.RelayServer.HandleEvent` | scripts/dev/relay_bun.ts:456-514 | EVENT: the new state and all frames are exactly those of the session model. |
| `RelayServer.RelayServer.AfterStore` | scripts/dev/relay_bun.ts:483-513 | Logging, immediate or delayed broadcast, and acknowledgement after a store, per fault mode. |
| `RelayServer.RelayServer.HandleReq` | scripts/dev/relay_bun.ts:516-588 | REQ: the new state and frames are those of the session model for the one read the store gives. |
| `RelayServer.RelayServer.Subscribe` | scripts/dev/relay_bun.ts:580-587 | An accepted REQ replaces the subscription of that name and sends its matches, then EOSE. |
| `RelayServer.RelayServer.HandleAuth` | scripts/dev/relay_bun.ts:590-625 | AUTH: identity and frames are those of the session model. |
| `RelayReplies.PublicationsAreDecided` | scripts/dev/relay_bun.ts:456-514 | In every run a publication is accepted exactly when writes are not rejected, it is welcome, and no held event outranks it if it is news. Then news is kept, visible after the delay, and logged; it is announced at once or by a timer to exactly the open subscriptions it meets, AUTH events to none; and it is acknowledged unless acknowledgements are dropped. Otherwise one negative answer goes out and nothing changes. |
| `RelayReplies.TimersAnnounce` | scripts/dev/relay_bun.ts:500-505 | In every run a due announcement goes out to exactly the open subscriptions the event meets, and changes nothing else. |
| `RelayLog.DecisionsIgnoreVisibility` | scripts/dev/relay_bun.ts:280-306 | What the store decides about an event does not depend on any visibility time. |
| `RelayLog.LogRebuildsStore` | scripts/dev/relay_bun.ts:418-437 | At every moment of every run, restarts included, replaying the log from nothing rebuilds exactly the live events and replacement index. |
| `RelayLog.LogNeverRepeats` | scripts/dev/relay_bun.ts:481-497 | The log only grows, and never by an id it already holds. |
| `RelayLog.FreshLogHasNoRepeats` | scripts/dev/relay_bun.ts:418-437 | From an empty log no id is ever written twice, across restarts. |
| `RelayLog.RestartRebuilds` | scripts/dev/relay_bun.ts:423-437 | A restart keeps the events and the index and leaves a consistent store. |
| `RelayLog.ServerHoldsExactlyTheSurvivors` | scripts/dev/relay_bun.ts:418-514 | At every moment of every run the server holds exactly the survivors of the valid events it has received. |
| `PricingCache.RunInv` | apps/anon-zap-signer/src/checkout-pricing-cache.ts:103-283 | The cache invariant (single flight, pacing, own snapshots, sound calls) holds at every step of every interleaving. |
| `PricingCache.OneRefreshAtATime` | apps/anon-zap-signer/src/checkout-pricing-cache.ts:121-211 | At most one refresh run is in progress, and `pending` names it. |
| `PricingCache.FailuresPause` | apps/anon-zap-signer/src/checkout-pricing-cache.ts:197-203 | The run after a failed one starts at least 5000 ms after its failure time, whoever asks. |
| `PricingCache.FailuresSpread` | apps/anon-zap-signer/src/checkout-pricing-cache.ts:197-203 | k consecutive failures need at least (k-1)*5000 ms from the first failure to the k-th start. |
| `PricingCache.ReturnsAreUnexpired` | apps/anon-zap-signer/src/checkout-pricing-cache.ts:258-281 | A returned snapshot is under our key and unexpired at the call's last clock reading. |
| `PricingCache.SnapshotAfter` | apps/anon-zap-signer/src/checkout-pricing-cache.ts:164-250 | A step leaves held what it installs, what it adopts from the store, or what was held: nothing else writes the snapshot. |
| `PricingCache.FailedRunsChangeNothing` | apps/anon-zap-signer/src/checkout-pricing-cache.ts:164-203 | No step of a run that fails changes the held snapshot. |
| `PricingCache.InstallKeepsCapturedCoverage` | apps/anon-zap-signer/src/checkout-pricing-cache.ts:169-183 | An installed refresh keeps every currency of the snapshot captured at its start if that is still valid at the check. |
| `PricingCache.CoverageNeverShrinksWithoutStore` | apps/anon-zap-signer/src/checkout-pricing-cache.ts:164-183 | Without a second-level store no step loses a currency of a held snapshot that has not expired. |
| `PricingCache.CoverageGrowsWithoutStore` | apps/anon-zap-signer/src/checkout-pricing-cache.ts:164-183 | The same over any stretch of a run. |
| `PricingCalls.CallsProceed` | apps/anon-zap-signer/src/checkout-pricing-cache.ts:219-281 | In every run a call asks the store exactly when nothing good is held and nothing is pending. Otherwise good rates that are under 240000 ms old, or in a pause, are returned at once; older ones get a refresh, which the call waits for unless it has a background hook; and without good rates the call throws in a pause with nothing pending and waits for a refresh otherwise. |
| `PricingCalls.StoreAnswersProceed` | apps/anon-zap-signer/src/checkout-pricing-cache.ts:229-281 | In every run a store entry is adopted exactly when it is signed under our key, an attestation, of supported currencies and good now; the call then proceeds in the same way. |
| `PricingCalls.WaitsEnd` | apps/anon-zap-signer/src/checkout-pricing-cache.ts:262-281 | In every run a cold waiter returns what is held exactly if its refresh did not fail and that is good at the last two readings, and throws otherwise; a stale waiter returns it if it is good, whatever became of the refresh, and falls back otherwise. |
| `PricingCalls.RecentRatesAreReturned` | apps/anon-zap-signer/src/checkout-pricing-cache.ts:258-276 | A caller that finds good rates under 240000 ms old gets them at once, and no refresh begins. |
| `PricingCalls.CallsThrowOnlyInPause` | apps/anon-zap-signer/src/checkout-pricing-cache.ts:277-278 | A call throws before waiting only within 5000 ms of the newest refresh's failure, with nothing pending and nothing good held. |
| `PricingCalls.QuotesAreInstalled` | apps/anon-zap-signer/src/checkout-pricing-cache.ts:142-196 | In every run a quote is installed, with its positive rates of supported currencies, exactly when it is fresh at three readings, signable, and lacks no currency of a good captured snapshot; that ends the pause. Any other answer makes the refresh throw. |
| `PricingCalls.RefreshesMove` | apps/anon-zap-signer/src/checkout-pricing-cache.ts:126-211 | In every run admission, the write, the failure and the clearing move their own refresh and nothing else. |
| `PricingCalls.FirstCallIsServed` | apps/anon-zap-signer/src/checkout-pricing-cache.ts:121-281 | A concrete run through every await in which a first call returns the quote it caused to be fetched. |
| `PricingCalls.FailedCallThrows` | apps/anon-zap-signer/src/checkout-pricing-cache.ts:197-203 | A concrete run in which the provider fails, and with it the call, and a pause of 5000 ms begins. |
| `PricingRaces.ReadsBegan` | apps/anon-zap-signer/src/checkout-pricing-cache.ts:224-250 | A call that waits for the store began at an earlier step, with nothing valid held and no refresh pending. |
| `PricingRaces.CoverageLossExplained` | apps/anon-zap-signer/src/checkout-pricing-cache.ts:164-250 | In every run, unexpired coverage is lost at a step exactly when it writes something narrower in one of two races: the answer of a store read that began before what is held was written, or the quote of a refresh that began before what is held was adopted, by a read that began before the refresh. |
| `PricingRaces.RegressExplained` | apps/anon-zap-signer/src/checkout-pricing-cache.ts:164-250 | In every run whose quotes are stamped after their refresh started and whose genuine entries are the service's own, `fetchedAt` goes back at a step exactly when it writes something fetched earlier in one of the same two races. |
| `PricingRaces.FetchedAtNeverGoesBackWithoutStore` | apps/anon-zap-signer/src/checkout-pricing-cache.ts:164-250 | Without a second-level store, quotes being stamped after their refresh started, `fetchedAt` never goes back. |
| `PricingRaces.UndisturbedReadsDoNoHarm` | apps/anon-zap-signer/src/checkout-pricing-cache.ts:164-250 | If no store read overlaps a write or the start of a refresh, no unexpired coverage is lost and, under the premises of RegressExplained, `fetchedAt` never goes back. |
| `PricingRaces.StaleStoreReadReplacesFreshQuote` | apps/anon-zap-signer/src/checkout-pricing-cache.ts:229-250 | A concrete five-step run of two callers in which a racing store read replaces a newer, wider snapshot. |
| `PricingRaces.LateQuoteReplacesAdoptedEntry` | apps/anon-zap-signer/src/checkout-pricing-cache.ts:164-250 | A concrete five-step run of two callers in which a racing refresh, whose quote was stamped before an entry was adopted, replaces that newer, wider entry. |
| `PricingCacheClass.PricingAuthorityCache.constructor` | apps/anon-zap-signer/src/checkout-pricing-cache.ts:103-111 | A cold cache. The new state is the transition of the state machine. |
| `PricingCacheClass.PricingAuthorityCache.BeginRefresh` | apps/anon-zap-signer/src/checkout-pricing-cache.ts:121-125 | Joins the pending run or begins one that captures the held snapshot. The new state is the transition of the state machine. |
| `PricingCacheClass.PricingAuthorityCache.ServeCall` | apps/anon-zap-signer/src/checkout-pricing-cache.ts:258-281 | One call between two awaits: return, refresh in the background, wait, or throw. The new state is the transition of the state machine. |
| `PricingCacheClass.PricingAuthorityCache.AwaitRefresh` | apps/anon-zap-signer/src/checkout-pricing-cache.ts:262-281 | What a call does when the refresh it awaited has settled. The new state is the transition of the state machine. |
| `PricingCacheClass.PricingAuthorityCache.OnCall` | apps/anon-zap-signer/src/checkout-pricing-cache.ts:224-257 | A call begins: memory, store read, or service. The new state is the transition of the state machine. |
| `PricingCacheClass.PricingAuthorityCache.OnStoreAnswer` | apps/anon-zap-signer/src/checkout-pricing-cache.ts:229-257 | A store read ends; a verified unexpired entry is adopted. The new state is the transition of the state machine. |
| `PricingCacheClass.PricingAuthorityCache.UsableRates` | apps/anon-zap-signer/src/checkout-pricing-cache.ts:142-151 | The loop keeps exactly the supported currencies with a positive rate. |
| `PricingCacheClass.PricingAuthorityCache.OnQuote` | apps/anon-zap-signer/src/checkout-pricing-cache.ts:142-196 | A quote arrives: installed, or the run throws. The new state is the transition of the state machine. |
| `PricingCacheClass.PricingAuthorityCache.OnFailure` | apps/anon-zap-signer/src/checkout-pricing-cache.ts:197-203 | A thrown run sets its pause. The new state is the transition of the state machine. |
| `PricingCacheClass.PricingAuthorityCache.OnSettled` | apps/anon-zap-signer/src/checkout-pricing-cache.ts:205-210 | `pending` is cleared only by the run it names. The new state is the transition of the state machine. |
| `PricingCacheClass.PricingAuthorityCache.OnResume` | apps/anon-zap-signer/src/checkout-pricing-cache.ts:262-281 | A waiting call resumes. The new state is the transition of the state machine. |
| `AddressRegistry.ValidateApprovedNames` | apps/address-gateway/src/gateway.ts:51-76 | The check passes exactly when every entry meets the policy (dotted names of at most 64 characters, hexadecimal keys, safe deadlines, transfers whole), names are distinct and no wallet has two registrations. |
| `AddressRegistry.NamesAreDotted` | apps/address-gateway/src/gateway.ts:51-76 | Valid names are exactly those of at most 64 letters, digits, _ and - with single dots between them. |
| `AddressRegistry.FindApproval` | apps/address-gateway/src/gateway.ts:414-416 | Finds an entry for the name and the wallet, and finds none only if there is none. |
| `AddressRegistry.ApprovalIsUnique` | apps/address-gateway/src/gateway.ts:51-76 | In a registry that passes, the entry found for a name and wallet is the only one. |
| `AddressManagement.ObservedExactly` | apps/address-gateway/src/gateway.ts:525-537 | A reply is taken to name u exactly when it is successful and its three fields are u, u@conduit.cash and the matching lnurlp address for a valid name u, and to name nothing exactly when it is a 404 with user not found. |
| `AddressManagement.ClaimKeyNamesOneMutation` | apps/address-gateway/src/gateway.ts:417-475 | Two screened requests share a claim key exactly when they ask for the same mutation: the signed lines bind operation, name, time, description and parties. |
| `AddressManagement.RunGuards` | apps/address-gateway/src/gateway.ts:509-523 | In every interleaving no two requests hold one claim, and a mutation goes upstream only under its own claim. |
| `AddressManagement.MutationsForwardAtMostOnce` | apps/address-gateway/src/gateway.ts:509-524 | Each (identity, signed statements) mutation is forwarded upstream at most once. |
| `AddressManagement.OldClaimsBlock` | apps/address-gateway/src/gateway.ts:509-523 | A claim already in the table blocks its mutation for good. |
| `AddressManagement.RowsAreRecorded` | apps/address-gateway/src/gateway.ts:541-552 | From an empty table, every observation row was recorded by an earlier recover of that wallet, with the reply it had received before. |
| `AddressManagement.RegistrationsAreCleared` | apps/address-gateway/src/gateway.ts:482-497 | A register past its check has a recorded recover that clears it. |
| `AddressManagement.RegistersFollowRecoveries` | apps/address-gateway/src/gateway.ts:482-553 | Every forwarded register is preceded by a recorded recover of the same wallet, at most 60 s older than the register's time, whose reply named nothing, the requested name or the approved replaced name. |
| `AddressManagement.ForwardedMutationsAreAuthorised` | apps/address-gateway/src/gateway.ts:401-523 | Every forwarded mutation is allowed by an entry for its wallet and name, within a day of its deadline if it has one, signed line by line by every wallet concerned within ten minutes, and proved by the entry's owner within one minute. |
| `AddressManagement.ObservationsAdvance` | apps/address-gateway/src/gateway.ts:541-552 | While a wallet's row is not deleted its observed_at never goes back. |
| `AddressPromises.ScreensExactly` | apps/address-gateway/src/gateway.ts:386-481 | With a sound registry a request passes the screen exactly when it is proper, signed, and allowed by an entry, and otherwise gets the status of the first check it fails (404, 401, 400, 403). |
| `AddressPromises.ArrivalsAreScreened` | apps/address-gateway/src/gateway.ts:379-511 | In every run an arriving request goes on exactly if it passes: a register to its observation, a recover (unless limited) and an availability check upstream, and other mutations to their claim if the owner agrees and the switch is on. |
| `AddressPromises.RegistersAreChecked` | apps/address-gateway/src/gateway.ts:482-511 | In every run a register goes on to its claim exactly when the wallet's row is at most 60 s old and names nothing, the requested name or the replaced one, the owner agrees, and the switch is on. |
| `AddressPromises.ClaimsAreTaken` | apps/address-gateway/src/gateway.ts:509-522 | In every run a mutation takes its claim, until ten minutes after its time, and goes on, exactly when nobody holds it. |
| `AddressPromises.ForwardsWait` | apps/address-gateway/src/gateway.ts:523 | In every run what goes upstream waits for its reply. |
| `AddressPromises.RepliesAreHeard` | apps/address-gateway/src/gateway.ts:524-541 | In every run the reply to a recover is recorded exactly when it says something of a registered wallet. |
| `AddressPromises.OldRowsAreCleared` | apps/address-gateway/src/gateway.ts:542-546 | In every run exactly the rows more than a day older than a recovery are cleared before it is recorded. |
| `AddressPromises.RecoveriesAreRecorded` | apps/address-gateway/src/gateway.ts:547-551 | In every run a recovery then becomes its wallet's row, unless that is a later one, and no other row changes. |
| `AddressPromises.RegistersCanGoThrough` | apps/address-gateway/src/gateway.ts:379-555 | For any passing recover and register of one wallet, some run takes both through every check and forwards the register. |
| `AddressPromises.IntTextReads` | apps/address-gateway/src/gateway.ts:427-475 | Times are signed as the decimal text of their value. |
| `AddressRequests.SuccessfulSubmissionsAgree` | apps/address-gateway/src/gateway.ts:164-268 | All submissions of one request_id that succeed carry the same content, that of the stored row; replays also carry its exact payload. |
| `AddressRequests.SuccessIffStored` | apps/address-gateway/src/gateway.ts:180-268 | A submission that ends in success or conflict succeeds exactly when its content (and, replayed, its payload) is the stored one. |
| `AddressRequests.RowsAreAuthorised` | apps/address-gateway/src/gateway.ts:126-259 | Every new row was inserted by a submission with valid authority that had passed its challenge. |
| `AddressRequests.ApprovalComesFromRegistry` | apps/address-gateway/src/gateway.ts:189-198 | "approved" is only said of a stored request that the deployed registry registers for that owner, wallet and name. |
| `RequestPromises.SubmissionsAreChecked` | apps/address-gateway/src/gateway.ts:126-163 | In every run a submission goes on to the table exactly when it is well formed, signed by its wallet, at most a minute from the future, and proved by its owner within a minute; a replay also needs an original proof made in its own time. |
| `RequestPromises.StoredRowsDecide` | apps/address-gateway/src/gateway.ts:164-198 | In every run a stored row decides: conflict if it is not the submission's own, approved if the registry grants it, and its status otherwise; without one a poll is not received and the rest go on. |
| `RequestPromises.ChallengesDecide` | apps/address-gateway/src/gateway.ts:199-242 | In every run exactly the submissions that pass the challenge go on to the insert. |
| `RequestPromises.InsertsAdd` | apps/address-gateway/src/gateway.ts:243-260 | In every run an insert adds exactly the submission's row if its id is free, and changes no other row. |
| `RequestPromises.SavedRowsDecide` | apps/address-gateway/src/gateway.ts:261-268 | In every run the saved row decides: received exactly when it has this content and, replayed, this payload. |
| `RequestPromises.SubmissionsCanGoThrough` | apps/address-gateway/src/gateway.ts:126-268 | Any backed first submission can go through every step to its row and its answer. |
| `AddressRequests.EvidenceIsImmutable` | apps/address-gateway/migrations/0002_immutable_request_evidence.sql:1-9 | The first insert of a request id wins: no later step changes or removes any column but the status. |
| `RequestPromises.DecisionsChangeStatus` | apps/address-gateway/migrations/0002_immutable_request_evidence.sql:1-9 | In every run an operator's decision changes the status of that row and nothing else. |
| `AddressTables.Database.constructor` | apps/address-gateway/src/gateway.ts:34-35 | A database with three empty tables. |
| `AddressTables.Database.InsertClaim` | apps/address-gateway/src/gateway.ts:515-521 | Changes one row exactly when the key is new, and none otherwise. |
| `AddressTables.Database.InsertRequest` | apps/address-gateway/src/gateway.ts:243-259 | Adds the row only if its id is new; all other evidence stays. |
| `AddressTables.Database.SetStatus` | apps/address-gateway/migrations/0001_address_requests.sql:1-13 | An operator changes the status of a row and nothing else. |
| `AddressGateway.ManagementGateway.constructor` | apps/address-gateway/src/gateway.ts:379-385 | No request in flight over the given database. |
| `AddressGateway.ManagementGateway.OnRequest` | apps/address-gateway/src/gateway.ts:387-511 | A management request arrives and is screened up to its first await. The new state is the protocol's next. |
| `AddressGateway.ManagementGateway.OnObservation` | apps/address-gateway/src/gateway.ts:482-511 | A register reads its wallet's observation. The new state is the protocol's next. |
| `AddressGateway.ManagementGateway.OnClaim` | apps/address-gateway/src/gateway.ts:509-522 | The claim goes through once only. The new state is the protocol's next. |
| `AddressGateway.ManagementGateway.OnForward` | apps/address-gateway/src/gateway.ts:523 | The request goes upstream. The new state is the protocol's next. |
| `AddressGateway.ManagementGateway.OnReply` | apps/address-gateway/src/gateway.ts:524-541 | The reply decides whether an observation is to be recorded. The new state is the protocol's next. |
| `AddressGateway.ManagementGateway.OnPrune` | apps/address-gateway/src/gateway.ts:542-546 | Old observations are deleted. The new state is the protocol's next. |
| `AddressGateway.ManagementGateway.OnUpsert` | apps/address-gateway/src/gateway.ts:547-551 | The observation is recorded unless a later one is there. The new state is the protocol's next. |
| `AddressGateway.ManagementGateway.OnAbort` | apps/address-gateway/src/gateway.ts:379-555 | A request fails at any await, keeping what it wrote. The new state is the protocol's next. |
| `AddressGateway.RequestGateway.constructor` | apps/address-gateway/src/gateway.ts:126-132 | No submission in flight over the given database. |
| `AddressGateway.RequestGateway.OnSubmission` | apps/address-gateway/src/gateway.ts:133-163 | A submission arrives, and its authority is checked. The new state is the protocol's next. |
| `AddressGateway.RequestGateway.OnPrevious` | apps/address-gateway/src/gateway.ts:164-198 | The stored row, if any, decides refusal, status, or the challenge. The new state is the protocol's next. |
| `AddressGateway.RequestGateway.OnChallenge` | apps/address-gateway/src/gateway.ts:199-242 | The challenge is passed or refused. The new state is the protocol's next. |
| `AddressGateway.RequestGateway.Insert` | apps/address-gateway/src/gateway.ts:243-259 | Only the first row of an id is written. |
| `AddressGateway.RequestGateway.OnInsert` | apps/address-gateway/src/gateway.ts:243-259 | The row is inserted and the insert reported. The new state is the protocol's next. |
| `AddressGateway.RequestGateway.OnInsertFailure` | apps/address-gateway/src/gateway.ts:243-260 | The insert fails, whether or not it wrote. The new state is the protocol's next. |
| `AddressGateway.RequestGateway.OnSaved` | apps/address-gateway/src/gateway.ts:261-268 | The stored row decides between received and conflict. The new state is the protocol's next. |
| `AddressGateway.RequestGateway.OnAbort` | apps/address-gateway/src/gateway.ts:126-268 | A submission fails at any await. The new state is the protocol's next. |
| `AddressGateway.RequestGateway.OnDecision` | apps/address-gateway/migrations/0001_address_requests.sql:1-13 | An operator decides about a request, by hand. The new state is the protocol's next. |
| `RateLimiter.ClientErrorRateLimiter.constructor` | packages/core/src/client-error-telemetry.ts:104-110 | A limiter that has seen nothing. |
| `RateLimiter.ClientErrorRateLimiter.ShouldRecord` | packages/core/src/client-error-telemetry.ts:113-129 | The in-place limiter, pruning loop included, decides and updates as the specification says. |
| `RateLimiter.RateIsLimited` | packages/core/src/client-error-telemetry.ts:116-120 | Calls that span at most k*windowMs, both ends included, record at most (k+1)*maxEvents events. |
| `RateLimiter.RepeatsAreApart` | packages/core/src/client-error-telemetry.ts:113-115 | Two recorded events with one signature are at least dedupeMs apart. |
| `RateLimiter.RecordedExactly` | packages/core/src/client-error-telemetry.ts:113-129 | A call is recorded exactly when none of its signature was recorded less than dedupeMs before it and fewer than maxEvents were recorded since the call that opened its window. |
| `RateLimiter.PruningIsInvisible` | packages/core/src/client-error-telemetry.ts:122-124 | Pruning never changes a decision, compared with a limiter that never prunes. |
| `RateLimiter.TableStaysSmall` | packages/core/src/client-error-telemetry.ts:113-129 | If dedupeMs <= windowMs the signature map never exceeds 2*maxEvents entries. |
| `Base64Url.BytesToBase64Url` | apps/market/functions/_lib/anon-zap-checkout-auth.ts:593-600 | The loop and btoa compute the specified encoding. |
| `Base64Url.EncodeSpellsSextets` | apps/market/functions/_lib/anon-zap-checkout-auth.ts:593-600 | The encoding is the bytes' 6-bit groups in the url alphabet of section 5 of RFC 4648, unpadded. |
| `Base64Url.DecodeEncode` | apps/market/functions/_lib/anon-zap-checkout-auth.ts:602-616 | Decoding undoes encoding for every nonempty byte string; the empty encoding is refused. |
| `Base64Url.DecodesExactlyTheEncodings` | apps/market/functions/_lib/anon-zap-checkout-auth.ts:602-616 | A text decodes to some bytes exactly when they are nonempty and encode to that text. |
| `Base64Url.DecodeIffCanonical` | apps/market/functions/_lib/anon-zap-checkout-auth.ts:602-616 | Accepted texts are exactly: nonempty, in the alphabet, length not 1 modulo 4, spare bits zero. |
| `Base64Url.AtobReads` | apps/market/functions/_lib/anon-zap-checkout-auth.ts:606-609 | atob of the padded text drops the padding and reads every 6-bit group; length 1 modulo 4 fails. |
| `Base64Url.PagesAcceptsIff` | apps/market/functions/_lib/anon-zap-checkout-auth.ts:881-889 | The Pages secret check in syntactic terms. |
| `ConstantTime.BytesEqual` | apps/market/functions/_lib/anon-zap-checkout-auth.ts:895-902 | The accumulating loop is true exactly for equal byte arrays. |
| `AuthorizationTokens.VerifyCreate` | apps/market/functions/_lib/anon-zap-checkout-auth.ts:904-991 | A fresh token verifies to its payload exactly when that is well formed and unexpired, and reports expiry exactly then. |
| `AuthorizationTokens.AcceptsExactly` | apps/market/functions/_lib/anon-zap-checkout-auth.ts:958-991 | Exactly the accepted tokens, and exactly the expired ones: the encoding of bytes that parse to an unexpired (expired) payload, then the secret's HMAC of conduit-anon-zap-checkout-v1, a dot and that encoding, and nothing in a third part. |
| `AuthorizationTokens.TamperedPayloadsAreRefused` | apps/market/functions/_lib/anon-zap-checkout-auth.ts:904-976 | A payload under the signature of another one, whose HMAC differs, is refused. |
| `AuthorizationTokens.OtherSecretsAreRefused` | apps/market/functions/_lib/anon-zap-checkout-auth.ts:958-976 | A token is refused under a secret whose HMAC of the same text differs. |
| `AuthorizationTokens.EmptyThirdPartIsTolerated` | apps/market/functions/_lib/anon-zap-checkout-auth.ts:963-966 | A trailing dot changes nothing, so accepted spellings are not unique. |
| `ConstantTime.StringsEqual` | apps/anon-zap-signer/src/signer.ts:437-444 | The accumulating loop is true exactly for equal strings. |
| `Base64Url.SignerAcceptsIff` | apps/anon-zap-signer/src/signer.ts:446-458 | The signer's secret check in syntactic terms. |
| `Base64Url.SignerAcceptsWhatPagesAccepts` | apps/anon-zap-signer/src/signer.ts:446-458 | Every secret the Pages function accepts the signer accepts; they differ exactly on nonzero spare bits. |
| `Ipv4.ParseIpv4Address` | packages/core/src/network-target-safety.ts:24-36 | The loop reads four decimal octets and refuses everything else. |
| `Ipv4.DottedReads` | packages/core/src/network-target-safety.ts:24-36 | Dotted decimal a.b.c.d reads back as a*2^24 + b*2^16 + c*2^8 + d. |
| `Ipv4.Ipv4InRange` | packages/core/src/network-target-safety.ts:24-36 | Whatever is read is below 2^32. |
| `Ipv4.OctetsOfValue` | packages/core/src/network-target-safety.ts:38-45 | Splitting undoes joining, for every four octets. |
| `Ipv4.ValueOfOctets` | packages/core/src/network-target-safety.ts:38-45 | Joining undoes splitting, for every 32-bit value. |
| `Ipv4.PublicIpv4IsOutsideBlocks` | packages/core/src/network-target-safety.ts:47-65 | The branches on octets exclude exactly the sixteen special-use address blocks. |
| `Ipv6.ParseIpv6Address` | packages/core/src/network-target-safety.ts:67-112 | The loop computes what the specification reads. |
| `Ipv6.ReadsExactlyTheSpellings` | packages/core/src/network-target-safety.ts:67-112 | Exactly the spellings of eight groups, with or without one `::` and one pair of brackets, are read (forms 1 and 2 of section 2.2 of RFC 4291), as the value of their groups. |
| `Ipv6.SpellingReadsAsSum` | packages/core/src/network-target-safety.ts:67-112 | Each spelling reads as the sum of group_i * 2^(16*(7-i)). |
| `Ipv6.GroupIsSum` | packages/core/src/network-target-safety.ts:67-112 | A group of one to four digits is worth the sum of its digits at their places. |
| `Ipv6.DigitIsPlace` | packages/core/src/network-target-safety.ts:67-112 | A hexadecimal digit, small or capital, is worth its place among the sixteen. |
| `Ipv6.ReadFits` | packages/core/src/network-target-safety.ts:67-112 | Whatever is read fits in 128 bits. |
| `Ipv6.PrefixIsBlock` | packages/core/src/network-target-safety.ts:114-121 | Comparing prefixes of length n is membership in the aligned block of 2^(128-n) addresses. |
| `Ipv6.PublicIpv6Ranges` | packages/core/src/network-target-safety.ts:150-173 | Public means: in 2000::/3, in none of 2001:db8::/32, 2001:10::/28, 2001:20::/28, 2001::/32, 2002::/16, 2001:2::/48 and 3fff::/20, and in 2001::/23 only in an exception. |
| `Ipv6.PublicInsideProtocolAssignments` | packages/core/src/network-target-safety.ts:139-173 | Inside 2001::/23 the public addresses are exactly 2001:1::1 to 2001:1::3, 2001:3::/32, 2001:4:112::/48 and 2001:30::/28, which meet no denied range. |
| `Shuffle.Choice` | packages/ui/src/checkout-loading-messages.ts:8 | A draw in [0, 1) gives a choice in 0..index. |
| `Shuffle.ChoiceInterval` | packages/ui/src/checkout-loading-messages.ts:8 | Each choice is drawn by exactly one of index+1 intervals of equal length. |
| `Shuffle.ShuffleLoadingMessages` | packages/ui/src/checkout-loading-messages.ts:2-12 | The in-place loop leaves its input alone and returns, in a fresh array, a permutation determined by its draws. |
| `Shuffle.ShuffleIsPermutation` | packages/ui/src/checkout-loading-messages.ts:7-10 | The result is a permutation, for every choice sequence. |
| `Shuffle.ShuffleIsBijective` | packages/ui/src/checkout-loading-messages.ts:7-10 | For distinct messages, choice sequences (0 <= c_i <= i) and permutations correspond one to one. |
| `BundleCensus.Walk` | scripts/dev/measure_checkout_startup_bundle.ts:68-83 | The worklist terminates, fails exactly when a missing module is reachable, and otherwise visits exactly the reachable modules, each once. |
| `BundleCensus.PushImports` | scripts/dev/measure_checkout_startup_bundle.ts:78-80 | The inner loop pushes exactly the followed imports. |
| `BundleCensus.StaticIsDynamic` | scripts/dev/measure_checkout_startup_bundle.ts:84-85 | What static imports reach, imports of both kinds reach. |
| `BundleCensus.Sum` | scripts/dev/measure_checkout_startup_bundle.ts:95-104 | The accumulating loop gives the totals of the set of modules, whatever their order. |
| `BundleCensus.TotalsAddUp` | scripts/dev/measure_checkout_startup_bundle.ts:95-104 | Totals of disjoint sets add up, in chunks, bytes and gzip bytes. |
| `BundleCensus.OneModuleCounts` | scripts/dev/measure_checkout_startup_bundle.ts:95-104 | One module counts as one chunk of its own sizes, and none as nothing. |
| `BundleCensus.MeasureEmittedCheckoutStartupBundle` | scripts/dev/measure_checkout_startup_bundle.ts:28-115 | Each failure occurs exactly when its cause does (over 512 chunks or 128 MiB, no entry, a missing module reached); otherwise the entries are counted, each figure is the total of its set, and initial + deferred + other equals all. |
| `IngestSanitizer.KeepAllowed` | apps/posthog-proxy/src/index.ts:457-539 | The loop over properties keeps exactly what its verdicts keep, or refuses if any is refused. |
| `IngestSanitizer.RebuildIngestEventProperties` | apps/posthog-proxy/src/index.ts:443-584 | The property sanitizer computes the specified result. |
| `IngestSanitizer.RebuildPostHogIngestPayload` | apps/posthog-proxy/src/index.ts:329-383 | The payload loop keeps the surviving events in order. |
| `IngestSanitizer.PropertiesIdempotent` | apps/posthog-proxy/src/index.ts:443-584 | Rebuilt properties rebuild to themselves under a usable pin. |
| `IngestSanitizer.EventIdempotent` | apps/posthog-proxy/src/index.ts:385-441 | A rebuilt event rebuilds to itself, hour-cut timestamps included. |
| `IngestSanitizer.SanitizerIsIdempotent` | apps/posthog-proxy/src/index.ts:329-441 | When an event survives, rebuilding the rebuilt payload gives back its shape and events in order if and only if the pinned token, when set, has a token's form. |
| `IngestSanitizer.IdempotentIffPinIsUsable` | apps/posthog-proxy/src/index.ts:329-441 | A sanitizer whose tables and URL parser know any page of the sending origin is idempotent on all payloads if and only if its pinned token, when set, has a token's form. |
| `IngestSanitizer.PersonalKeyBreaksIdempotence` | apps/posthog-proxy/src/index.ts:329-441 | A concrete page view that goes on under the pin "phx_operator", and whose rebuilt form does not come back as it is. |
| `IngestSanitizer.CountersAreUnlinkable` | apps/posthog-proxy/src/index.ts:404-441 | A forwarded attribution counter has no event id, offset or session id, and its timestamp is on the hour. |
| `IngestPromises.ForwardedIsClean` | apps/posthog-proxy/src/index.ts:443-621 | What is forwarded is anonymous, carries a token, names the sending app and a page of the sending origin, and otherwise holds admissible properties only. |
| `IngestPromises.PropertiesGoOnExactly` | apps/posthog-proxy/src/index.ts:443-621 | Exactly which properties go on, and as what: each key is listed for the event (base, required or optional of its contract, or a fixed lifecycle name) with a value in its range; a token, all required names and the page of the sending origin are there; the result is anonymous, under the pinned token if any, and otherwise unchanged, but for session names of counted attributions. |
| `IngestPromises.LabelsGoOnUnchanged` | apps/posthog-proxy/src/index.ts:500-511 | Every label that goes on is one that came, with its value. |
| `IngestPromises.EventsGoOnExactly` | apps/posthog-proxy/src/index.ts:385-441 | Exactly which events go on, and as what: known names, properties that go on, well-formed event id, timestamp and offset, of which a counted attribution keeps only the full hour. |
| `IngestPromises.PayloadsGoOnExactly` | apps/posthog-proxy/src/index.ts:329-383 | Exactly which payloads go on: one to a hundred candidates of an array, a keyed capture batch or a single event, of which those that pass go on in their order. |
| `IngestPromises.UuidsHaveForm` | apps/posthog-proxy/src/index.ts:109-112 | Ids are read exactly in groups of 8, 4, 4, 4 and 12 digits, of version 7 (sessions) or 1 to 8 (events) and variant 8 to b. |
| `IngestPromises.TokensHaveForm` | apps/posthog-proxy/src/index.ts:21 | Project tokens are exactly phc_ and 16 to 64 letters and digits. |
| `IngestSanitizer.CaptureBatchSharesItsKey` | apps/posthog-proxy/src/index.ts:363-380 | Every event forwarded in a capture batch carries that batch's key, which is the pinned one if any. |
| `FormEncoding.DecodeEncodedBytes` | packages/core/src/checkout-intent.ts:96 | Percent decoding undoes form encoding for every byte string (section 5 of the WHATWG URL Standard). |
| `FormEncoding.ParseSerialized` | packages/core/src/checkout-intent.ts:96 | Parsing a serialised parameter list gives the list back, for all well-formed names and values. |
| `FormEncoding.BytesAreSpelled` | packages/core/src/checkout-intent.ts:96 | Letters, digits and *-._ stand for themselves, a space becomes +, and every other byte its capital escape. |
| `FormEncoding.EscapesDecode` | packages/core/src/checkout-intent.ts:96 | An escape decodes to its byte, whatever the case of its digits. |
| `FormEncoding.OthersStay` | packages/core/src/checkout-intent.ts:96 | What is no escape decodes to itself. |
| `FormEncoding.PiecesAreCut` | packages/core/src/checkout-intent.ts:96 | A piece is cut at its first =, and is all name without one. |
| `FormEncoding.PiecesGivePairs` | packages/core/src/checkout-intent.ts:96 | Empty pieces count for nothing, and every other piece gives one pair. |
| `CheckoutIntents.ValidEncodedParameters` | packages/core/src/checkout-intent.ts:40-52 | The nested loops accept exactly the fragments all of whose components decode, those after a source key excepted. |
| `CheckoutIntents.ParseCartRows` | packages/core/src/checkout-intent.ts:165-177 | The pushing loop parses every row, or refuses if one is refused. |
| `CheckoutIntents.ParseCheckoutIntentFragment` | packages/core/src/checkout-intent.ts:83-196 | The parser computes the specified result. |
| `CheckoutIntents.AcceptedIsBounded` | packages/core/src/checkout-intent.ts:54-196 | Every accepted intent has 1 to 20 items at distinct coordinates with canonical references, quantities 1 to 99, at most 100 units, and a purchase one item. |
| `CheckoutPromises.IntentsAreReadExactly` | packages/core/src/checkout-intent.ts:83-196 | Exactly which fragments are read, and as what: at most 8192 bytes, well encoded, the five names in their numbers, one item or the rows of a version 1 envelope of at most 6144 bytes, distinct coordinates, at most 100 units, the one partner of the right form, and the one source or else the referrer. |
| `CheckoutPromises.OtherVersionsAreReported` | packages/core/src/checkout-intent.ts:128-142 | Another version is reported exactly where a well-shaped cart spells an object with one. |
| `CheckoutPromises.QuantitiesAreDecimals` | packages/core/src/checkout-intent.ts:112-116 | A quantity is exactly the decimal text of 1 to 99. |
| `CheckoutPromises.ReferencesAre` | packages/core/src/checkout-intent.ts:54-64 | A reference is naddr1, in small or capital letters, and at least one character of its alphabet. |
| `CheckoutIntents.CodesHaveForm` | packages/core/src/checkout-intent.ts:36-38 | Partner codes are 3 to 64 lower-case letters, digits, _ and -, the first a letter or a digit. |
| `CheckoutLinks.HashBuilder.constructor` | packages/core/src/app-links.ts:216 | Parameters start with the first pair. |
| `CheckoutLinks.HashBuilder.Set` | packages/core/src/app-links.ts:217-222 | A present key keeps its first place with the new value and loses its other places; an absent one is appended; all other parameters stay. |
| `CheckoutLinks.Complete` | packages/core/src/app-links.ts:218-227 | The common tail: partner, canonical source domain, final check. |
| `CheckoutLinks.BuildMarketCheckoutBuyUrl` | packages/core/src/app-links.ts:208-228 | The purchase builder computes the specified link or error. |
| `CheckoutLinks.BuildMarketCheckoutCartUrl` | packages/core/src/app-links.ts:231-257 | The cart builder computes the specified link or error. |
| `CheckoutLinks.BuyRoundTrip` | packages/core/src/app-links.ts:208-228 | Whenever the purchase builder returns, its fragment reads back as the same canonical product, quantity, partner and source. |
| `CheckoutLinks.CartRoundTrip` | packages/core/src/app-links.ts:231-257 | Whenever the cart builder returns, its fragment reads back as the same canonical products and quantities in order, partner and source. |
| `CheckoutLinks.AcceptedIntent` | packages/core/src/app-links.ts:208-257 | What the parser accepts satisfies all that rebuilding needs. |
| `CheckoutLinks.BuyRebuilds` | packages/core/src/app-links.ts:208-228 | A purchase link built from an accepted intent is refused exactly when its text is over the fragment limit, and otherwise reads back as that intent. |
| `CheckoutLinks.CartRebuilds` | packages/core/src/app-links.ts:231-257 | A cart link built from an accepted intent is refused exactly when its JSON or text is over its limit, and otherwise reads back as that intent. |
| `CheckoutLinks.PurchasesAreRefusedExactly` | packages/core/src/app-links.ts:196-228 | A purchase link is refused for its origin, partner, product or source, in this order, or because its fragment would not be read; otherwise it is that origin and that fragment. |
| `CheckoutLinks.CartsAreRefusedExactly` | packages/core/src/app-links.ts:196-257 | The same for cart links, of which every product must have a canonical form. |
| `PartnerRegistry.ActiveCheckoutPartnerCodes` | packages/core/src/checkout-partner-registry.ts:14-29 | The counting loop finds exactly the active codes. |
| `PartnerRegistry.ActiveIffCarriedOnce` | packages/core/src/checkout-partner-registry.ts:14-29 | A code is active exactly when the registry has at most 64 entries and exactly one of them that is active, has an account and a code of the right form carries it. |
| `PartnerRegistry.DomainResolvesToItsClaim` | packages/core/src/checkout-partner-registry.ts:40-62 | A domain resolves to a code exactly when one entry alone lays claim to it and carries that code: it lists it among at most eight canonical domains, and exactly one live entry, not necessarily that one, carries the code. |
| `PartnerRegistry.InactiveEntryResolvesADomain` | packages/core/src/checkout-partner-registry.ts:51-60 | A concrete registry whose domain resolves through an inactive entry without an account, because another entry of that code is active. |
| `PartnerRegistry.LiveResolutionIff` | packages/core/src/checkout-partner-registry.ts:40-62 | Whatever any domain resolves to, some live entry carries that code and lists that domain, if and only if the registry is too long to resolve anything or no entry that is not live alone claims, under a code of a live entry, a canonical domain it lists. |
| `PartnerRegistry.WithoutBorrowingResolutionIsLive` | packages/core/src/checkout-partner-registry.ts:40-62 | A registry in which no entry that is not live lists domains under a live entry's code resolves through live entries only. |
| `PartnerRegistry.ResolversIgnoreOrder` | packages/core/src/checkout-partner-registry.ts:31-62 | Both resolvers give one answer for any reordering of the registry. |
| `CheckoutAttribution.AttributionPasses` | packages/core/src/checkout-attribution.ts:15-92 | The properties built from any resolved attribution, or from none, pass the consistency validator and every label check. |
| `CheckoutAttribution.ChecksAcceptExactlyTheReports` | packages/core/src/checkout-attribution.ts:15-92 | Given a domain no partner has, the two checks accept exactly the properties that some checkout is reported as, and the older contracts that carry no source. |
| `CheckoutAttribution.AttributionSays` | packages/core/src/checkout-attribution.ts:20-38 | An attribution names the source as given and how it came about, and credits exactly: the domain's owner for a claimed source, the link's code if active and else the owner for a referring one, the link's code without a source. |
| `CheckoutAttribution.AttributedExactly` | packages/core/src/checkout-attribution.ts:20-38 | A checkout is attributed exactly when its source is canonical or, without one, its link's code is active. |
| `CheckoutAttribution.ClaimedSourcesIgnoreTheLink` | packages/core/src/checkout-attribution.ts:28-33 | A link's partner code does not change the attribution of a claimed source. |
| `CheckoutAttribution.ReportSays` | packages/core/src/checkout-attribution.ts:40-61 | A report names the method and whom the checkout is credited to, and the domain only if somebody owns it. |
| `CheckoutAttribution.ReportCredits` | packages/core/src/checkout-attribution.ts:40-61 | Whatever attribution it is given, a report credits a claimed source to the owner of its domain alone, and any other to an active code of the attribution or else to that owner. |
| `CheckoutAttribution.ConsistentExactly` | packages/core/src/checkout-attribution.ts:64-92 | The consistency check passes exactly the properties that agree, method by method. |
| `CheckoutAttribution.LabelsExactly` | packages/core/src/checkout-attribution.ts:15-92 | The label checks pass exactly known methods, owned domains or other, and active codes. |
| `CheckoutAttribution.ReportsIgnoreOrder` | packages/core/src/checkout-attribution.ts:15-61 | What is reported does not depend on the order of the registry. |

## Left out

- Filters arrive at the relay already parsed: `normalizeFilter`, `parseMessage`, the health route and the counters are not modelled.
- The order of ids is that of their code units; on the hexadecimal ids of verified events `localeCompare` agrees with it.
- A write to the relay's log either happens or not; torn lines and file errors are not part of the model.
- The pricing cache is followed for one fixed key; its diagnostics and the value of the last error are not modelled, nor is the timeout around store access beyond its two outcomes.
- The gateway's preview-origin admission, CORS, HTTP parsing and public receiving routes are not modelled; a request that is refused there never reaches a table.
- Rows of the request table are never deleted in the model; no statement of the gateway deletes them.
- RateLimiter.RateIsLimited: speaks of consecutive calls of a monotone clock rather than of arbitrary intervals, as the calls within an interval are consecutive.
- The signer's `hexToBytes` and the request signature around its string comparison are not modelled.
- Host names other than address literals (special-use suffixes, label syntax) are left out of the address model.
- Random draws are real numbers, so rounding of `random() * (index + 1)` is not modelled.
- BundleCensus.MeasureEmittedCheckoutStartupBundle: takes entries, imports and sizes as given: scanning HTML and JavaScript and resolving paths are not modelled.
- The sanitizer's event contracts, label values and route classes are parameters: they are constant tables, and its idempotence does not depend on them. Beacon decoding, the GMV route and upstream delivery are not modelled.
- Quantities given to the link builders are real numbers, `isNumber` saying which of them the language has; NaN and the infinities, which the final check refuses, are not modelled.
- The origin check and path of a checkout link are one given base, or its absence.
- Attribution properties are absent or strings; other JSON values, which the label checks refuse first, are not modelled.
- React components, network calls, deployment configuration and cryptography are not part of this model.
