# Verified model of ghp

ghp is a proxy between development tools and GitHub: it hands out its own revocable tokens,
checks what a token may do, and forwards requests with the user's GitHub credential. This
project models the parts of ghp in which state, failures and interleavings matter, and proves
what they promise. Run `dafny verify dfyconfig.toml` to check it (Dafny 4.11).

The main results, by component:

1. **GraphQL gate** (`GraphQLAst`, `GraphQLAnalyzer`, `GraphQLVisits`, `GraphQLSoundness`,
   `GraphQLGate`, `GraphQLPolicy`). The static analyser walks a query with named fragments, a stack of open
   fragments and a depth cap. Its findings are exactly what the fully unfolded query holds, on any
   fragment table, cyclic ones included. For a mutation this needs one condition, which is exact:
   the walk meets the names of all nested fields (on acyclic tables it does). An operation that can
   be analysed is then forwarded for a restricted token if and only if its unfolding meets the
   policy node by node. For a document without fragments that policy is stated over its text, in
   plain terms.
2. **Vault store** (`VaultKV`, `DeviceAuthVault`, `DeviceAuthUndisturbed`, `DeviceAuthDecisions`,
   `ProxyTokenVault`, `ProxyTokenRuns`, `DefaultAppVault`). Records and indexes are kept by single-key operations of
   which any may fail, some after taking effect, and those of several instances interleave freely.
   The indexes agree with the records in every reachable state, but for exactly described races;
   the cleanups remove only what they should, and one that is not disturbed makes up for all that
   were. A revocation and a decision last exactly if nobody still holds the record as it was.
3. **Caches and coalescing** (`TokenCache`, `TokenCacheRuns`, `TokenCacheOutage`, `SingleFlight`,
   `RateLimit`, `ResponseCache`, `ResponseCacheUndisturbed`, `UploadPack`, `CacheCleanup`). Each agrees with what it speeds up, exactly or
   within a stated bound, over every run: a revoked token is gone after 30 seconds, one call per
   key does the lookup (the one exception is made exact), eviction of idle visitors cannot be
   observed (exactly when the window is no longer than the eviction time), and a cached git
   response is a complete one.
4. **Encodings** (`TokenString`, `PackServe`, `InstallationKey`, `AuthTime`, `AuthStateTables`,
   with `ByteStrings`). Base62 tokens, pkt-line and side-band framing, the installation cache key
   and timestamps compared as texts: round trips, injectivity and order.
5. **Device flow** (`DeviceFlow`, `DeviceReplies`, `DeviceHandlers`, `DeviceLogin`). Over every run of the server, a
   device code yields its session only in time and only after a signed-in user's approval, and it
   yields it again exactly as long as the store has not deleted the request and it has not expired;
   every poll is told what has been decided, and the CLI's polling loop, connected to this server,
   learns it and is never told to slow down.

Conventions. An object whose methods update it is a class, and its methods are proved against
functions or predicates of the state before. Concurrent code is a state machine: a run is a
sequence of events, `After(run)` the state it leads to, and theorems quantify over all legal
runs. Device authorizations in Vault, interleaved token operations, the single-flight lookups
and the response cache have this form and no classes, because their steps interleave. SHA-256 is
taken to be injective and random codes and tokens to be fresh. Clocks, randomness, the network,
the parsers and failures are parameters.

Where the code and its own comments disagree, the model follows the code. The comment on
`scanCacheDir` (internal/gitcache/cleanup.go:121-125) promises an empty list for every directory
without cached responses. An existing directory without any yields a nil slice, which the caller
takes for a read error, so that it leaves the size gauge as it was (`CacheCleanup.NoList`). The
comment on handing out a session "exactly once" (internal/auth/device.go:229) holds as long as
the store deletes the request; when a session is handed out again is stated exactly
(`DeviceFlow.GrantedAgain`). The comment that concurrent misses make "exactly one" membership
request (internal/proxy/enterprise.go:309-312) does not hold for a call that has read the cache
before the first one's verdict is there and asks for the flight after it is over
(`SingleFlight.FurtherLookup`, `SingleFlight.SecondLookup`). An expiry that truncates to the
zero time is accepted and then never expires for a lookup, but the cleanup deletes it
(`AuthStateTables.CleanupIsExact`, `AuthStateTables.ZeroExpiryIsObservable`). Handlers write a
whole device authorization back without a version check, so a poll that has read it as pending
can undo an approval, and in Vault an update of a token's scopes can undo its revocation; when
this cannot happen is stated exactly (`DeviceAuthDecisions.DecisionHolds`,
`ProxyTokenRuns.RevocationHolds`).

## Model

| member | source | states |
|---|---|---|
| GraphQLAnalyzer.RepositoryArgs | internal/proxy/graphql.go:679-693 | The owner and name are those of the last literal arguments of these names, "" where there is none. |
| GraphQLAnalyzer.Analyzer.WalkSelectionSet | internal/proxy/graphql.go:541-577 | The recursive walk with its mutable stack and seen-sets adds exactly the findings of the functional walk, and restores the fragment stack on exit. |
| GraphQLAnalyzer.Analyzer.WalkSpread | internal/proxy/graphql.go:556-573 | A spread of an open fragment is skipped, one of an undefined fragment is recorded as unknown, any other is walked in the same context with its name on the stack. |
| GraphQLAnalyzer.Analyzer.WalkField | internal/proxy/graphql.go:579-668 | A field adds its lookup, cross-repository and access findings and those of its selection, which is walked as nested and as no mutation. |
| GraphQLAst.InlineIsSpreadFree | internal/proxy/graphql.go:513-539 | A document with its defined spreads inlined spreads no defined fragment any more. |
| GraphQLSoundness.CapIsTransparent | internal/proxy/graphql.go:541-545 | Unless the walk reports too deep, the depth cap changes nothing: it finds what the uncapped walk finds, which terminates by the fragments not on the stack and the size of the selection. |
| GraphQLSoundness.WalkIsPrecise | internal/proxy/graphql.go:541-668 | On any table, whatever the walk records is found at some node of the unfolding. |
| GraphQLVisits.VisitedUnfolds | internal/proxy/graphql.go:541-577 | On any table, whatever the walk visits is a node of the unfolding. |
| GraphQLVisits.ClosedIsSound | internal/proxy/graphql.go:556-573 | Sets closed under the table have seen every selection of every finite unfolding. |
| GraphQLVisits.EverythingIsSeen | internal/proxy/graphql.go:556-573 | On any table, cyclic ones included, every selection of the unfolding is visited in its own context or at the root, although spreads of open fragments are skipped. |
| GraphQLVisits.AcyclicVisitsAll | internal/proxy/graphql.go:541-577 | On acyclic tables every node is visited in its own context. |
| GraphQLVisits.AcyclicNamesVisited | internal/proxy/graphql.go:541-577 | So there the condition for mutations holds. |
| GraphQLSoundness.WalkOfVisited | internal/proxy/graphql.go:541-668 | The walk records exactly the findings of the nodes it visits. |
| GraphQLSoundness.QueryWalkIsExact | internal/proxy/graphql.go:541-668 | For an operation that is no mutation, over any fragment table, cyclic ones included: a finding is recorded if and only if the unfolding holds it; a root context finds at least what a nested one does. |
| GraphQLSoundness.AcyclicWalkIsExact | internal/proxy/graphql.go:541-668 | Over an acyclic table the same holds for mutations, too. |
| GraphQLSoundness.MutationWalkIsExact | internal/proxy/graphql.go:541-668 | Over any table the same holds for a mutation whose walk visits the names of the nested fields. |
| GraphQLSoundness.MissedNameLosesFinding | internal/proxy/graphql.go:556-573 | If it misses a name, there are policy tables under which it misses a finding. |
| GraphQLSoundness.MutationWalkIsCompleteIff | internal/proxy/graphql.go:541-668 | So a mutation's walk misses nothing, under all policy tables, if and only if it visits those names. |
| GraphQLSoundness.AnalysisOfInlined | internal/proxy/graphql.go:513-577 | Over an acyclic table the analysis, its depth verdict included, equals the analysis of the document in which every defined spread is replaced by its body. |
| GraphQLSoundness.TooDeepIsExact | internal/proxy/graphql.go:541-545 | Over an acyclic table the walk is too deep if and only if the unfolding opens a selection set below level 100. |
| GraphQLSoundness.TooDeepIsLevels | internal/proxy/graphql.go:541-577 | On any table, cyclic ones included, the walk is too deep if and only if more than 100 selection sets are open at once, where a fragment is not entered while it is open. |
| GraphQLSoundness.LevelsAreReached | internal/proxy/graphql.go:541-577 | So nothing is refused as too deep whose unfolding is not that deep. |
| GraphQLSoundness.CyclicMutationLosesFinding | internal/proxy/graphql.go:556-573 | Such a loss exists: a concrete cyclic mutation whose unfolding holds an unknown field that the walk does not record. |
| GraphQLGate.LastDefinitionCounts | internal/proxy/graphql.go:418-422 | Of several fragment definitions with one name the last one is the one looked up. |
| GraphQLGate.SelectOperation | internal/proxy/graphql.go:498-511 | Selects the first operation of the requested name, or the only one if none is requested; fails exactly if there is no such operation. |
| GraphQLGate.CollapseScopes | internal/proxy/graphql.go:456-475 | Whatever order the map yields, each permission seen is kept with its strictest level. |
| GraphQLGate.CollapseKeepsVerdict | internal/proxy/graphql.go:695-720 | Checking the collapsed scopes against a token is checking every requirement seen. |
| GraphQLGate.AnalyzeRequest | internal/proxy/graphql.go:402-490 | Succeeds if and only if an operation is selected and its walk is not too deep, and then describes the findings of that walk. |
| GraphQLGate.MissingScopes | internal/proxy/graphql.go:711-720 | The permissions required that the token's scopes do not satisfy. |
| GraphQLGate.CheckAnalysis | internal/proxy/proxy.go:436-562 | The chain of early returns accepts if and only if every one of the policy's conditions on the findings holds. |
| GraphQLGate.NodeAllowedByFindings | internal/proxy/graphql.go:579-668 | A node meets the policy if and only if none of its findings is held against it. |
| GraphQLGate.WalkOperationIsExact | internal/proxy/graphql.go:448-454 | The capped walk of the selected operation records exactly what its unfolding holds: of any query, and of a mutation whose names are visited. |
| GraphQLGate.PassesIsPolicy | internal/proxy/proxy.go:436-562 | The checks pass if and only if the whole unfolded operation meets the policy: every field always allowed, mapped and granted, or a nested leaf; every mutation root mapped and granted; with a repository list, no mutation, no cross-repository field, and every lookup literal and listed, at least one. |
| GraphQLGate.AcceptedIsForwardable | internal/proxy/proxy.go:363-562 | Forwarding theorem on acyclic documents: the request is accepted if and only if one operation is selected, its unfolding stays above the cap and meets the policy. |
| GraphQLGate.AcceptedIsAllowed | internal/proxy/proxy.go:363-562 | On any document, cyclic ones included: an operation that can be analysed, a query or a mutation whose names are visited, is accepted if and only if its unfolding meets the policy at every node. |
| GraphQLGate.HandleGraphQL | internal/proxy/proxy.go:363-562 | Which status is answered exactly when; a request is forwarded if and only if it is a POST and the token is unrestricted or the request is accepted; what is forwarded is what was analysed. |
| GraphQLPolicy.GrantsIsPermission | internal/database/models.go:99-108 | A write needs "write", a read "read" or "write", of that very permission. |
| GraphQLPolicy.SameNameIsEqualFold | internal/proxy/passthrough.go:491-500 | Two names are the same if and only if they have the same length and differ in the case of letters only. |
| GraphQLPolicy.SaysIsLastLiteral | internal/proxy/graphql.go:679-693 | The value taken is that of the last literal argument of the name, read off the arguments directly. |
| GraphQLPolicy.TreeIsAllowed | internal/proxy/graphql.go:579-668 | The policy of a document without fragments, read off its text by recursion, is the policy at every node of its unfolding. |
| GraphQLPolicy.TreeHas | internal/proxy/graphql.go:579-668 | So are the repository lookup and the scoped field that it must contain. |
| GraphQLPolicy.AcceptedIsPolicy | internal/proxy/proxy.go:363-562 | An acyclic document is forwarded if and only if that policy holds of its text with every fragment written out where it is spread. |
| GraphQLPolicy.AcceptedAtNodes | internal/proxy/proxy.go:363-562 | Any document, cyclic ones included, if it can be analysed and a mutation's names are visited: forwarded if and only if at every node of its unfolding the field is known, its scope held by the token at the level asked for, and the repository rules are met. |
| GraphQLPolicy.ForwardedIsGranted | internal/proxy/graphql.go:695-720 | A scoped token's request is forwarded only if the token maps the permission of every write in the unfolding to "write", and that of every read to "read" or "write". |
| GraphQLPolicy.GrantedIsForwarded | internal/proxy/proxy.go:436-562 | Conversely, without a repository list, an operation all of whose fields are known and granted in this sense is forwarded. |
| GraphQLPolicy.MutationNeedsItsScope | internal/proxy/graphql.go:611-636 | A mutation that names a field at its root is forwarded for a scoped token only if the mutation table has that field and the token holds what the table asks for. |
| GraphQLPolicy.SelectedPlainly | internal/proxy/graphql.go:498-511 | Without a name only a sole operation is selected, with one, and no two operations of it, the operation so named. |
| DeviceAuthVault.ActAgrees | internal/database/vault.go:1324-1536 | Every KV operation of every store method, failing or not, keeps index and records in agreement. |
| DeviceAuthVault.RunAgrees | internal/database/vault.go:1324-1536 | The agreement holds in every state of every interleaving in which device codes are fresh. |
| DeviceAuthVault.IndexNamesItsRecord | internal/database/vault.go:1389-1429 | In every interleaving and with any operations failing, an index entry for a user code names a record that is absent or carries that user code, and so does what a lookup by user code returns. |
| DeviceAuthVault.ActSafe | internal/database/vault.go:1434-1536 | A record disappears, and a thread is about to delete one, only if it has expired or its deletion has begun; every KV operation keeps this. |
| DeviceAuthVault.RunSafe | internal/database/vault.go:1434-1536 | The same in every state of every interleaving in which device codes are fresh. |
| DeviceAuthVault.CleanupRemovesForTheGone | internal/database/vault.go:1434-1536 | In all of them a cleanup removes an index entry on account of a record that has expired or whose deletion has begun; it hits the entry of a live record only if that entry names another record with the same user code. |
| DeviceAuthVault.LiveEntryCanBeLost | internal/database/vault.go:1465-1536 | And then it can, although no operation fails: a concrete run. |
| DeviceAuthVault.CleanupSparesLiveEntries | internal/database/vault.go:1434-1536 | So with fresh user codes it removes an index entry only if the record it names has expired or a delete of it has begun. |
| DeviceAuthUndisturbed.CreatedIsFound | internal/database/vault.go:1324-1402 | Undisturbed, a create makes the authorization reachable by its user code. |
| DeviceAuthUndisturbed.CollisionIsRolledBack | internal/database/vault.go:1340-1369 | A create whose user code is taken leaves neither record nor index entry. |
| DeviceAuthUndisturbed.FoundUntilExpiry | internal/database/vault.go:1371-1402 | Undisturbed, a lookup by user code answers with the record the index names, until it expires. |
| DeviceAuthUndisturbed.UpdateTakesEffect | internal/database/vault.go:1404-1417 | Undisturbed, an update replaces the record, and creates none where none is. |
| DeviceAuthUndisturbed.DeletedIsGone | internal/database/vault.go:1419-1429 | A delete leaves neither the record nor an index entry that names it, and spares the other entries. |
| DeviceAuthUndisturbed.CleanupIsExact | internal/database/vault.go:1434-1536 | An undisturbed cleanup removes exactly the expired records, and of the index keeps exactly the entries that name a record left and whose user code no expired record has. |
| DeviceAuthUndisturbed.CleanupKeepsLiveEntries | internal/database/vault.go:1434-1536 | Where no user code is in use twice, those are the entries of the records left. |
| DeviceAuthUndisturbed.SharedCodeLosesEntry | internal/database/vault.go:1434-1536 | Where one is, an expired record without an entry costs the live one its entry. |
| DeviceAuthDecisions.RunCreatesAlone | internal/database/vault.go:1324-1369 | In every interleaving a thread that is still to create a record is the only one to have it in hand. |
| DeviceAuthDecisions.CanBeUndone | internal/auth/device.go:188-226 | From a thread that holds an authorization as it was before its decision, a continuation without failures writes that back. |
| DeviceAuthDecisions.DecisionHolds | internal/database/vault.go:1404-1417 | A decided authorization stays decided in every continuation, failures and other instances included, if and only if no handler has it in hand as it was before the decision. |
| ProxyTokenVault.VaultStore.CreateProxyToken | internal/database/vault.go:726-754 | Record first, then the indexes: whichever write fails, every index entry points at an existing token with that hash or user. |
| ProxyTokenVault.VaultStore.GetProxyTokenByHash | internal/database/vault.go:756-769 | What is found carries the hash asked for; nothing is reported as missing that the index has. |
| ProxyTokenVault.VaultStore.RevokeProxyToken | internal/database/vault.go:856-870 | Revokes an unrevoked token once, changes nothing else, and keeps the indexes valid. |
| ProxyTokenVault.VaultStore.UpdateProxyToken | internal/database/vault.go:872-895 | Changes neither hash nor user nor dates, and keeps the indexes valid. |
| ProxyTokenVault.CreateUpdateRevoke | internal/database/vault.go:726-895 | Without failures a created token is found by its hash, then as updated, then revoked; a second revocation fails and leaves the first one's time. |
| ProxyTokenVault.KeptUntilCutoff | internal/database/postgres.go:423-442 | What the SQL DELETE leaves: the tokens neither revoked nor expired before the cutoff, as they were. |
| ProxyTokenVault.VaultStore.ListAllProxyTokens | internal/database/vault.go:808-828 | Every token exactly once, in spite of the index directories in the listing. |
| ProxyTokenVault.VaultStore.RemoveToken | internal/database/vault.go:933-964 | The index entries go first, and the record only after them, so that a failure in between leaves no entry without its record. |
| ProxyTokenVault.VaultStore.DeleteExpiredProxyTokens | internal/database/vault.go:897-968 | Removes only tokens that the SQL WHERE clause selects and only their index entries; the count is the number of records removed, but for deletes reported as failed that took effect; without failures exactly the SQL result remains. |
| ProxyTokenVault.ClearedIsSurvivors | internal/database/postgres.go:423-442 | A pass that has removed every eligible token it listed leaves what the SQL DELETE leaves. |
| ProxyTokenVault.TrimmedTwice | internal/database/vault.go:897-968 | Cleanups compose: two that may have failed differ from the first state only in eligible tokens and their entries. |
| ProxyTokenVault.RunCleanupCycle | internal/token/cleanup.go:54-73 | One tick, with any retention setting and any failures. |
| ProxyTokenVault.RunCleanupLoop | internal/token/cleanup.go:35-52 | Over any number of cleanups, failed or not, with any changes of the retention period: only tokens eligible under the latest cutoff go, none stays that is eligible under the cutoff of an undisturbed one, and if that is the latest cutoff exactly the others stay; no index entry of a removed one is left. |
| ProxyTokenRuns.ActOk | internal/database/vault.go:726-968 | Under several instances at once: every KV operation of creates, lookups, revocations, updates and cleanups, failing or not, keeps indexes and tokens in agreement but for late creates. |
| ProxyTokenRuns.RunOk | internal/database/vault.go:726-968 | The same in every state of every interleaving. |
| ProxyTokenRuns.EntriesAgree | internal/database/vault.go:726-968 | In every interleaving an index entry points at a token with that hash or user, or its token is gone and a create wrote an entry for it after a cleanup had begun to remove it as eligible. |
| ProxyTokenRuns.LateIsRecorded | internal/database/vault.go:726-754 | What makes a create late is an event of the run: its index write after that removal began. |
| ProxyTokenRuns.PromptCreatesAgree | internal/database/vault.go:726-968 | Where no create is late, every entry points at an existing token with that hash or user. |
| ProxyTokenRuns.RemovalIsDue | internal/database/vault.go:897-968 | A cleanup begins to remove a token only if it has read it as revoked, or the token has expired. |
| ProxyTokenRuns.FoundByHash | internal/database/vault.go:756-769 | Interleaved as it may be, a lookup by hash returns a token with that hash. |
| ProxyTokenRuns.CleanupIsExact | internal/database/postgres.go:423-442 | An undisturbed cleanup of any consistent state leaves what the SQL DELETE leaves. |
| ProxyTokenRuns.CleanupWithinCreate | internal/database/vault.go:726-968 | A cleanup between the record write and the index writes of a create leaves a dangling entry if and only if the token was eligible by then. |
| ProxyTokenRuns.CreatedIsFound | internal/database/vault.go:726-769 | Undisturbed, a create adds the token and its index entries and nothing else, and a lookup by its hash finds it. |
| ProxyTokenRuns.LookupIsRead | internal/database/vault.go:756-769 | Undisturbed, a lookup by hash answers with the token the index names. |
| ProxyTokenRuns.RevokeTakesEffect | internal/database/vault.go:856-870 | Undisturbed, a revocation marks a token that is not yet revoked with the time, and changes nothing else. |
| ProxyTokenRuns.UpdateTakesEffect | internal/database/vault.go:872-895 | Undisturbed, an update changes the fields it is for, and nothing else. |
| ProxyTokenRuns.RevocationHolds | internal/database/vault.go:830-895 | A revoked token stays revoked in every continuation if and only if no thread is about to write its record back as read before: an update can undo a concurrent revocation. |
| DefaultAppVault.SqlLeavesOneDefault | internal/database/sqlite.go:658-691 | The SQL transaction leaves exactly one default, the target. |
| DefaultAppVault.PassedHasDefault | internal/database/vault.go:484-528 | No state passed through lacks a default if there was one; once the target is written it is one; no other app becomes one. |
| DefaultAppVault.AppStore.SetDefaultApp | internal/database/vault.go:484-528 | Every state in the history of the switch lies between the old one and the transaction's result, wherever it fails; after the first write the target is a default; success leaves exactly the transaction's result. |
| DefaultAppVault.AppStore.ClearOthers | internal/database/vault.go:508-527 | Each write of the clearing loop stays between the old state and the transaction's result. |
| DefaultAppVault.AppStore.GetDefaultApp | internal/database/vault.go:436-447 | Finds a default, and reports none only if there is none. |
| TokenCache.Service.Resolve | internal/token/token.go:262-306 | The resolution step: a cached token for 30 seconds, then the store; revoked and expired tokens are refused either way. |
| TokenCache.Service.Revoke | internal/token/token.go:311-321 | Revokes in the store and, on success, drops the token from this instance's cache. |
| TokenCache.Service.InvalidateByID | internal/token/token.go:326-330 | Drops the cached token that the id is mapped to. |
| TokenCache.Service.WarmTokenCache | internal/token/token.go:345-364 | Caches the active tokens under their hashes and ids. |
| TokenCache.Service.ResolveToGitHubToken | internal/proxy/resolver.go:52-140 | Behind the token check only: for a proxy token the linked credential, cached for 5 minutes, for an agent token what the installation-token provider answers. |
| TokenCacheRuns.RunOk | internal/token/token.go:262-340 | In every run every cached token is reachable through the id map, and was in the store unrevoked when it was cached. |
| TokenCacheRuns.ResolvedIsRecent | internal/token/token.go:262-306 | No token is returned past its expiry, and every one returned was stored unrevoked, exactly so, within the last 30 seconds. |
| TokenCacheRuns.RevocationPropagates | internal/token/token.go:311-330 | 30 seconds after a revocation no instance returns the token. |
| TokenCacheRuns.RevokerNeverReturns | internal/token/token.go:311-330 | The instance that revoked it never returns it again. |
| TokenCacheRuns.RevokedOnIsRecorded | internal/token/token.go:311-321 | A revocation that succeeds is recorded as one on that instance, and no unrevoked row of that id is left. |
| TokenCacheRuns.RefusalIsJustified | internal/token/token.go:262-306 | The caches refuse no good token: every refusal is what the store says now, or the expiry of the token as it was stored within the last 30 seconds. |
| TokenCacheRuns.CredentialIsRecent | internal/proxy/resolver.go:52-140 | A credential is handed out for resolving tokens only, so the bounds hold for it too; that of a proxy token was the stored one within the last 5 minutes. |
| TokenCacheOutage.CredentialRefusalIsJustified | internal/proxy/resolver.go:52-140 | A token that resolves gets no credential only if a proxy token has none linked, the store has not got it or does not answer, the installation-token provider refuses, or the kind is unknown. |
| TokenCacheOutage.AgentGetsMinted | internal/proxy/resolver.go:119-140 | An agent token that resolves gets what the provider answers. |
| TokenCacheOutage.CredentialOutlivesStore | internal/proxy/resolver.go:70-104 | In every run, a credential handed out, and not already in the 5 minutes before, is handed out again by that instance for 5 minutes, to every token linked to it, although the store does not answer. |
| TokenCacheOutage.ResolvedOutlivesStore | internal/token/token.go:262-306 | In every run, a token resolved is resolved again for 30 seconds on that instance without the store, until it expires or an invalidation there. |
| TokenCacheOutage.WarmedOutlivesStore | internal/token/token.go:345-364 | So is every token that a warm-up has cached. |
| TokenCacheOutage.InvalidationIsFresh | internal/token/token.go:323-330 | After an invalidation the instance returns that token only as the store has it now. |
| SingleFlight.RunOk | internal/proxy/enterprise.go:338-360 | The registered flights are exactly those of the leaders, and a closed flight carries its leader's verdict, in every run. |
| SingleFlight.OneLeaderPerKey | internal/proxy/enterprise.go:338-360 | Per key at most one call leads, and the registered flight is its own. |
| SingleFlight.RemovesOwnFlight | internal/proxy/username.go:57-71 | A leader's delete removes its own flight and no other. |
| SingleFlight.WaiterGetsLeadersVerdict | internal/proxy/enterprise.go:342-351 | A waiter is released only by its flight's end, and answers exactly what the leader concluded. |
| SingleFlight.AnswersComeFromLookups | internal/proxy/username.go:235-296 | Every answer is one a lookup for that key gave, but for the fail-closed answer of a call that did not lead. |
| SingleFlight.LookedIsRecorded | internal/proxy/enterprise.go:355-355 | What counts as an answer of a lookup is an event of the run, by the call that led for that key. |
| SingleFlight.PositiveAnswersWereLookedUp | internal/proxy/enterprise.go:338-360 | In every run, a call that reports membership, or a name, reports what a lookup for its key has answered. |
| SingleFlight.CancelledIsDenied | internal/proxy/enterprise.go:346-351 | A waiter that is cancelled answers that the user is no member, or has no name, and changes nothing else. |
| SingleFlight.AsyncNeverWaits | internal/proxy/username.go:57-71 | In no run does a call wait that is not to. |
| SingleFlight.NoNameIsNotCached | internal/proxy/username.go:57-71 | In no run is a missing name cached. |
| SingleFlight.FirstLeads | internal/proxy/enterprise.go:338-344 | A call that misses the cache and finds no flight registers its own and looks up. |
| SingleFlight.LeaderFinishes | internal/proxy/enterprise.go:355-359 | Once its lookup has answered, a leader left to itself caches the answer (a missing name excepted), hands it to the waiters, removes its flight and answers with it. |
| SingleFlight.WaiterHasLiveLeader | internal/proxy/username.go:200-204 | No waiter waits on an open flight whose leader is not live, each of whose operations brings the end closer, unless the leader has panicked. |
| SingleFlight.PanicStrands | internal/proxy/enterprise.go:344-359 | A leader that panics in its lookup strands its key for good: its flight stays registered and open, nobody else leads, and waiters wait until cancelled. |
| SingleFlight.CachedUntilEvicted | internal/proxy/enterprise.go:352-359 | Once a verdict is cached, the key stays cached until evicted, in every continuation of the run. |
| SingleFlight.CachedCallLooksNothingUp | internal/proxy/enterprise.go:338-341 | A call for a cached key answers from the cache, joins no flight and looks nothing up. |
| SingleFlight.FurtherLookup | internal/proxy/enterprise.go:338-360 | After a leader caches its verdict and until that is evicted, another lookup for the key can only come from a call that had read the cache before and not yet asked for the flight. |
| SingleFlight.SecondLookup | internal/proxy/enterprise.go:338-360 | And from such a call it does come: a run for every key and verdict. |
| RateLimit.IPRateLimiter.Allow | internal/auth/ratelimit.go:63-78 | One request: the visitor is found or made, marked as seen, and its bucket decides. |
| RateLimit.IPRateLimiter.Cleanup | internal/auth/ratelimit.go:82-95 | One tick evicts exactly the visitors idle for longer than the limit. |
| RateLimit.Refill | internal/auth/ratelimit.go:48-59 | A bucket fills up in one window and no sooner. |
| RateLimit.FirstBurst | internal/auth/ratelimit.go:48-78 | Of a burst of an address not seen before exactly the first `limit` requests are admitted. |
| RateLimit.NextBurst | internal/auth/ratelimit.go:48-78 | Of the next burst after a pause as many as have flowed in over the pause, limit/window per second, but at most `limit`. |
| RateLimit.TraceAgrees | internal/auth/ratelimit.go:63-95 | On every trace the evicting limiter answers as the one that never evicts, if the window is no longer than the eviction time. |
| RateLimit.EvictionUnobservable | internal/auth/ratelimit.go:48-95 | Eviction is unobservable on all traces if and only if the window is no longer than the eviction time or the limit is 0. |
| RateLimit.AdmissionBound | internal/auth/auth.go:117-126 | Over any stretch of length T of any trace, an address is admitted at most limit + T * limit / window times. |
| ResponseCache.KeyIdentifiesRequest | internal/gitcache/handler.go:215-220 | For valid names the hashed key is equal exactly when owner, repository and command are. |
| ResponseCache.SlashCollides | internal/gitcache/storage_fs.go:15-18 | Without the restriction on names it would not be. |
| ResponseCache.PublishOk | internal/gitcache/handler.go:399-410 | The rename puts a complete body in its place, and whoever is replaying the old file goes on with it. |
| ResponseCache.StepOk | internal/gitcache/handler.go:312-422 | Every step of every request, and every eviction or crash, keeps the invariant: cached files are complete, temporary files have one owner, and what is replayed is not being written. |
| ResponseCache.After | internal/gitcache/handler.go:312-422 | The invariant holds after every run. |
| ResponseCache.CachedFilesAreComplete | internal/gitcache/handler.go:387-410 | In every interleaving of misses, hits, evictions and crashes, a file at a cache path holds a complete upstream answer to that owner, repository and command. |
| ResponseCache.RepliesAreComplete | internal/gitcache/handler.go:331-347 | Every hit replays, and every miss delivers, a complete upstream answer to that very request. |
| ResponseCache.RepliesBeginRight | internal/gitcache/handler.go:388-400 | A request that fails has sent nothing but the beginning of one. |
| ResponseCache.PublishedIsReplayed | internal/gitcache/handler.go:331-410 | The next request of the kind asks no upstream and replays the bytes that the miss delivered. |
| ResponseCacheUndisturbed.CopyIsPublished | internal/gitcache/handler.go:387-410 | A copy left to itself sends the whole answer, whatever the chunk size, and leaves it in its place. |
| ResponseCacheUndisturbed.MissIsCached | internal/gitcache/handler.go:349-422 | A miss left to itself sends the upstream's answer and caches it under the request's own path; no other name changes. |
| ResponseCacheUndisturbed.MissIsStreamed | internal/gitcache/handler.go:412-421 | Where no temporary file can be created the whole answer is sent all the same. |
| ResponseCacheUndisturbed.HitIsReplayed | internal/gitcache/handler.go:331-347 | A hit left to itself sends the whole cached file. |
| ResponseCacheUndisturbed.FailureIsRemoved | internal/gitcache/handler.go:388-400 | After a copy that fails on either side the temporary file is removed and nothing is cached. |
| ResponseCacheUndisturbed.OpenOrUpstreamFails | internal/gitcache/handler.go:331-375 | A cached file that cannot be opened is asked for upstream, and an upstream that does not answer leaves everything as it was. |
| ResponseCacheUndisturbed.RenameFails | internal/gitcache/handler.go:401-410 | If the rename fails the client still has the whole answer, and the temporary file is removed. |
| UploadPack.ServeUploadPack | internal/gitcache/handler.go:134-212 | Commands run in order up to the first that ends the request; where refs are listed at all, a fetch is preceded by an accepted listing, and by none that failed. |
| CacheCleanup.SumWithout | internal/gitcache/cleanup.go:126-159 | The size of a cache does not depend on the order in which its files are added up. |
| CacheCleanup.CacheDir.ScanCacheDir | internal/gitcache/cleanup.go:126-159 | Every cached response once, with its size and age, and their total; no list exactly on a read error or for an existing directory without any. |
| CacheCleanup.SortByAge | internal/gitcache/cleanup.go:97-100 | The same files, oldest first. |
| CacheCleanup.CacheDir.EvictOldest | internal/gitcache/cleanup.go:102-114 | The loop stops within the limit or after the last file; it keeps the running total exact, and stops as soon as it can. |
| CacheCleanup.CacheDir.EnforceRepoSizeLimit | internal/gitcache/cleanup.go:79-119 | With any removals failing: it ends within the limit or has tried every file, oldest first; no file removed is newer than one not tried; with the last one removed the limit would be exceeded; the gauge is the sum of the sizes kept. |
| CacheCleanup.NewestRemoved | internal/gitcache/cleanup.go:102-114 | The last file removed is the newest one removed. |
| TokenString.DigitsFit | internal/token/token.go:373-401 | 43 base62 digits are enough for the number 32 bytes denote: 256^32 <= 62^43. |
| TokenString.ReverseInPlace | internal/token/token.go:395-398 | The two-index loop reverses the digits in place. |
| TokenString.LeastDigitFirst | internal/token/token.go:379-393 | The divide loop and the padding yield 43 digits that denote the number. |
| TokenString.GenerateToken | internal/token/token.go:373-401 | The prefix of the type and 43 base62 digits that decode to the random bytes read as a number. |
| TokenString.DecodeInjective | internal/token/token.go:373-401 | A digit string of given length is determined by its number. |
| TokenString.TokensAreDistinct | internal/token/token.go:373-401 | Distinct random bytes give distinct tokens. |
| TokenString.AlphabetIs | internal/token/token.go:53-57 | The digits are 0-9, A-Z and a-z, in this order. |
| PackServe.WriteFetchResponse | internal/gitcache/packserve.go:59-97 | What is written is the header, the data in band-1 packets and a flush, or, if the writer fails, a beginning of it. |
| PackServe.Hex4RoundTrip | internal/gitcache/packserve.go:59-97 | The four hex digits of a pkt-line length read back as the length. |
| PackServe.Hex4IsHexadecimal | internal/gitcache/packserve.go:59-97 | The length field is the number in lower-case hexadecimal, most significant digit first. |
| PackServe.ResponseRoundTrip | internal/gitcache/packserve.go:59-97 | A pkt-line and side-band reader gets back exactly the data: the header first, ceil(n/65515) band-1 packets of at most 65520 bytes, one flush at the end. |
| InstallationKey.InstallationCacheKeyText | internal/github/app.go:146-168 | Whatever order the map yields, the text hashed is the canonical one. |
| InstallationKey.KeyIdentifiesRequest | internal/github/app.go:146-168 | Two requests have the same text if and only if installation, multiset of repositories and permissions are equal, for non-empty names without separators. |
| InstallationKey.EmptyNameCollides | internal/github/app.go:146-168 | The condition on empty names is needed: two requests that differ have the same text. |
| ByteStrings.SortedIsUnique | internal/github/app.go:147-149 | There is one sorted arrangement, so the text does not depend on the sort algorithm. |
| ByteStrings.JoinInjective | internal/github/app.go:155-165 | Joining non-empty parts without separators can be undone. |
| AuthTime.TextOrderIsTimeOrder | internal/database/sqlite.go:85-104 | For years 0 to 9999 the byte order of two timestamps is the order of the instants, truncated to milliseconds. |
| AuthTime.ParseUndoesFormat | internal/database/sqlite.go:71-104 | Parsing undoes formatting up to that truncation. |
| AuthTime.TimestampLayout | internal/database/sqlite.go:85-104 | The layout: 24 characters, the separators of 2006-01-02T15:04:05.000Z, and between them the decimal digits of the calendar fields. |
| AuthTime.YearStartCounts | internal/database/sqlite.go:102-104 | The calendar is the Gregorian one: leap years by its rule, counted in closed form. |
| AuthStateTables.AuthTable.Consume | internal/database/sqlite.go:906-931 | Reads and deletes in one statement, and then checks the expiry. |
| AuthStateTables.FoundUntilExpiry | internal/database/sqlite.go:890-931 | A row is found, and consumed, as it was created, until its expiry, cut to the millisecond, has passed. |
| AuthStateTables.ConsumedOnce | internal/database/sqlite.go:906-931 | A state is consumed at most once, and every other state stays. |
| AuthStateTables.OtherKindIsLeft | internal/database/sqlite.go:906-931 | A state of another kind is neither found nor consumed. |
| AuthStateTables.AuthTable.DeleteExpired | internal/database/sqlite.go:870-940 | Deletes exactly the rows whose timestamp text is below the cutoff's, and counts them. |
| AuthStateTables.CleanupIsExact | internal/database/sqlite.go:992-1067 | A row the cleanup deletes is reported as not found then and at all later times, if and only if its expiry does not truncate to the zero time. |
| AuthStateTables.CleanupUnobservable | internal/database/sqlite.go:842-1067 | With real expiries no lookup and no consume, now or later, can tell that the cleanup has run. |
| AuthStateTables.RewriteKeepsText | internal/database/sqlite.go:1023-1053 | Writing back a row that was read keeps its timestamp text. |
| AuthStateTables.ZeroExpiryIsObservable | internal/database/sqlite.go:1013-1019 | A row with an expiry in the first millisecond of year 1 is found before the cleanup and not after it. |
| DeviceHandlers.DeviceStore.CreateDeviceAuth | internal/database/sqlite.go:944-976 | Inserts a request unless a code is missing or taken, and changes nothing otherwise. |
| DeviceHandlers.DeviceStore.HandleDeviceStart | internal/auth/device.go:92-150 | At most five attempts, each with new codes: the reply carries the codes of the first that can be stored, and only that one is stored. |
| DeviceHandlers.DeviceStore.HandleDevicePoll | internal/auth/device.go:155-247 | The handler does the poll step, whichever of its store calls fail; a failing lookup answers server_error. |
| DeviceHandlers.DeviceStore.HandleDeviceDecision | internal/auth/device.go:301-404 | The handler does the decision step, whichever of its store calls fail, the best-effort deletion of the session included. |
| DeviceHandlers.DeviceStore.DeleteExpiredDeviceAuths | internal/database/sqlite.go:1060-1067 | Deletes the expired requests and counts them. |
| DeviceFlow.RunOk | internal/auth/device.go:92-404 | In every run user codes are unique, and an approved request names a session of its user. |
| DeviceFlow.DecisionsAreFinal | internal/auth/device.go:343-404 | Approved and denied are final until the request is deleted. |
| DeviceFlow.GrantedAgain | internal/auth/device.go:228-244 | After a grant, a later poll of the code gets the session again if and only if its lookup works, the request has not expired, and no poll of it from the grant on could look it up and delete it. |
| DeviceFlow.GrantedOnce | internal/auth/device.go:228-244 | So after a grant whose deletion succeeds, every later poll that can look it up answers expired_token. |
| DeviceFlow.GrantedTwice | internal/auth/device.go:228-234 | And after one whose deletion fails, the next poll before the expiry gets the session, too, in every run. |
| DeviceFlow.SecondGrant | internal/auth/device.go:228-234 | Such a run exists. |
| DeviceFlow.SessionLeftBehind | internal/auth/device.go:376-395 | A session that an approval minted and no request ever carries is left behind if and only if the update of the request and the deletion of the session both fail. |
| DeviceFlow.SessionWasMinted | internal/auth/device.go:373-395 | There are no sessions but those minted by approvals of undecided live requests. |
| DeviceFlow.GrantIsEarned | internal/auth/device.go:155-247 | A session is handed out only within ten minutes of the start, only after a signed-in user approved the user code it was started with, and it is the session minted by that approval for that user. |
| DeviceFlow.ApprovalIsDelivered | internal/auth/device.go:228-244 | A live approved request answers a poll that does not come too soon with the approver's session. |
| DeviceFlow.PoliteIsNotSlowed | internal/auth/device.go:188-207 | Polls at least two seconds apart are never told to slow down. |
| DeviceFlow.SlowDownIsExact | internal/auth/device.go:188-216 | With successful writes the answer is slow_down if and only if the live request was polled less than two seconds ago, by the poll time as the store keeps it (SQLite truncates it to milliseconds). |
| DeviceReplies.StatusIsDecision | internal/auth/device.go:343-404 | In every run the status of a stored request tells which decision on its user code, if any, was answered as done since its start. |
| DeviceReplies.PollTellsDecision | internal/auth/device.go:155-247 | In every run, a poll that works, of a live request and not too soon: authorization_pending if and only if there has been no decision since the start, access_denied if and only if a denial, and the session if and only if an approval. |
| DeviceReplies.PoliteCliIsTold | internal/auth/device.go:155-247 | The same told by the run alone: within ten minutes of the start, polls two seconds apart, until a poll has ended the request, whatever else happens and whatever writes fail. |
| DeviceReplies.LateIsExpired | internal/auth/device.go:176-187 | More than ten minutes after the start the answer is expired_token. |
| DeviceReplies.DeniedOnce | internal/auth/device.go:219-227 | After a denial has been delivered and the request deleted, every later poll that can look it up answers expired_token. |
| DeviceReplies.FirstDecisionCounts | internal/auth/device.go:343-404 | A signed-in user's decision on a live request counts if and only if it is the first one; a later one is told of the first. |
| DeviceReplies.CleanupRemovesExpired | internal/database/sqlite.go:1060-1067 | A cleanup removes what has expired, up to the store's precision, and keeps the rest as it is. |
| DeviceLogin.RunDeviceLogin | cmd/ghp/auth.go:274-359 | When each poll is sent, how the loop ends, and that it polls neither past the deadline nor after a response that ends it. |
| DeviceLogin.HandleResponse | cmd/ghp/auth.go:304-351 | slow_down adds five seconds for good; a 429 waits for Retry-After or twice the interval, at most a minute; the other codes end the login. |
| DeviceLogin.PollsKeepInterval | cmd/ghp/auth.go:294-358 | After a poll that was answered, no later poll comes sooner than the interval then in force, however many 429s come between. |
| DeviceLogin.ClientIsNotSlowed | cmd/ghp/auth.go:274-359 | Connected to this server, in every run, the client is never told to slow down. |
| DeviceLogin.IntervalCounts | cmd/ghp/auth.go:274-318 | The interval is the server's, five seconds instead of less than one, and five more for every slow_down. |
| DeviceLogin.PollTimes | cmd/ghp/auth.go:294-358 | When each poll is sent after the answer to the one before, and that none is sent after the deadline, in seconds. |
| DeviceLogin.ClientIsTold | cmd/ghp/auth.go:288-358 | From end to end, in every run: the client connected to this server gets a session, a denial or a pending answer if and only if the user has approved, denied or not yet decided. |

## Left out

- HTTP transport, reverse proxying, TLS, metrics, logging, templates and CLI plumbing; error texts; the order of listings that are sorted for output.
- The GraphQL parser and JSON decoding, git's pack generation and command parsing, AES, JWT and SHA-256 internals, random generation.
- The contents of the GraphQL field tables: the theorems hold for all tables whose requirement levels are read or write, which are the only ones in use.
- GraphQLGate.HandleGraphQL: case is folded for ASCII letters only when repositories are compared (repository names have no others).
- TokenCache.Service.Resolve: one atomic step on its instance, so that the time a store read takes is not added to the 30 seconds; how installation tokens are minted and cached is not part of the model.
- ProxyTokenRuns.RunOk: Vault's read-modify-write of a token can lose a concurrent update; which ones are lost is followed for revocations only (RevocationHolds).
- TokenCacheRuns.RevocationPropagates: the store's operations are single steps there, as in the SQL stores; what their interleaving in Vault can undo is the subject of ProxyTokenRuns.RevocationHolds.
- DeviceFlow.RunOk: every handler is a single step there; what the interleaving of its store operations can undo is the subject of DeviceAuthDecisions.DecisionHolds.
- GraphQLSoundness.MutationWalkIsCompleteIff: field names are taken to contain no colon, as the GraphQL grammar has it.
- Vault rows that cannot be decoded, and other writers to its paths.
- RateLimit.EvictionUnobservable: one clock reading per request, and reals where the rate library rounds floating-point numbers.
- SingleFlight.RunOk: the inner workings of the LRU caches, which may drop any entry at any time.
- UploadPack.ServeUploadPack: starts with the parsed commands; a wrong protocol version, a body that cannot be read or parsed and a repository that cannot be opened end the request before any command runs.
- ResponseCache.StepOk: the error packets sent beside a response, loss of written data when the operating system crashes (the code does not sync files), failures of closing a file, and the modification times that order evictions.
- CacheCleanup.CacheDir.EnforceRepoSizeLimit: other writers to the directory during one pass.
- AuthTime.ParseUndoesFormat: the other layouts parseTime tries, none of which gives these texts another meaning; years outside 0 to 9999.
- InstallationKey.KeyIdentifiesRequest: the hash itself.
- DeviceFlow.GrantIsEarned: the verification page, the normalisation of typed user codes, and what ends a session after it was handed out.
- DeviceLogin.RunDeviceLogin: starts with a complete start response; a start request that fails ends the login before.
- DeviceLogin.ClientIsNotSlowed: one clock for client and server; the header parsing behind Retry-After.
- AppRegistry's choice among several defaults, whose log text and loop disagree.
