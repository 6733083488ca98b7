# DeployPilot: verified models

DeployPilot deploys applications to servers and watches over them. These Dafny modules model the parts of it that
keep state under concurrency or depend on an exact algorithm, and prove what they promise over whole runs.

| file | models |
|---|---|
| `Tunnel.dfy`, `TunnelCalls.dfy`, `TunnelManager.dfy` | the agent tunnel: commands sent to reconnecting agents, answers routed back to the callers |
| `BruteForce.dfy`, `Protector.dfy`, `ProtectorFields.dfy`, `ProtectorLimits.dfy` | the brute-force protector behind the login handler |
| `Hub.dfy`, `WSHub.dfy` | WebSocket hubs that relay broadcasts to each other through Redis |
| `AuditChain.dfy` | the hash chain over the audit log |
| `RefreshTokens.dfy`, `Rotation.dfy`, `TokenCodec.dfy` | the refresh token store, rotation over whole runs, and the text form of an entry |
| `RateLimiters.dfy` | the two per-IP limiters |
| `Tickets.dfy` | one-time WebSocket tickets |
| `Buckets.dfy` | check results grouped by interval |
| `Retention.dfy` | local and cloud backup retention |
| `Scopes.dfy` | OAuth scope lists |
| `Options.dfy` | option values, counting, 64-bit integers |

## How the models are built

A component that is locked and changed in place appears twice. A pure module has its state, its events (one for each
section under the lock, each channel operation, each socket write that others can come between) and `Step`; `Run` is
the state after a sequence of events, and the main lemmas hold for every such sequence the program can go through
(`Legal`), that is, for every interleaving. A class has the fields of the source's object and its methods. In
`Manager`, `BruteForceProtector`, `TwoFARateLimiter`, `RegisterRateLimiter`, `MemoryRefreshTokenStore` and
`WSTicketStore`, `Valid()` says that the heap equals the run of the methods called so far, kept in the ghost field
`hist`, so each lemma about runs holds for the object. `WSHub` and `Chain` keep no history: their methods are proved
to change the object by the functions the pure modules are made of. Algorithms with a loop are methods proved against
a recursive function, and the lemmas are about the function.

Conventions: times are integers in nanoseconds, handed to each operation as `now`, and 0 is Go's zero time except
where an epoch is written out; iteration over a map or set takes an arbitrary order; generated identifiers are fresh;
strings in the splitters are sequences of bytes, and their separators single bytes.

## Where the code and its comments differ

The models do what the code does.

- `internal/audit/chain.go:126-128` says the verifier goes on from the expected hash so that later records fail as
  well. The code goes on from the stored hash, so an edit flags one record and not its successors
  (`EditFlagsTheRecord`, `OverwriteFlagsTwo`).
- `internal/audit/chain.go:83` takes ID order for insertion order. A chain verifies exactly when IDs were appended in
  increasing order (`VerifiesIffIncreasing`).
- `internal/backup/cloud_storage.go:182` says the oldest are removed. On the newest-first listing it gets, the loop
  removes the newest (`CloudRemovesFirstAndExpired`, `NewestFirstAgreesIff`).
- `internal/api/refresh.go` rotates in separate steps on the store, so a token can be exchanged twice by overlapping
  requests, and a logout everywhere can miss a refresh under way (`ExchangedOnceIff`, `DoubleExchange`,
  `FlightOutlivesLogout`).
- `internal/server/server.go:95` broadcasts to the app "audit" with no app ID in the message, which other hubs relay
  to the connections of the empty app ID (`OtherAppIsMissed`).
- `internal/bruteforce/protector.go:112-139` returns a progressive delay before it looks at the IP, so a blocked IP is
  refused only when the account is locked or has no positive delay (`BlockedIPIsRefusedIff`, `BlockedIPIsAdmitted`).

## Model

| member | source | states |
|---|---|---|
| `TunnelRouting.RunsKeepInv` | internal/agent/tunnel.go:63-219 | Every interleaving of connect, message, disconnect, cleanup, lookup, registration, send, result, receive, timeout, cancel and return keeps the routing invariant: the calls, the pending table and the readers agree with the story of each command ID, and nothing was ever dropped. |
| `TunnelRouting.ReceivedIsOwnFirstAnswer` | internal/agent/tunnel.go:163-219 | A call that returns a result returns the first result that came in for its own command ID while it was registered. |
| `TunnelRouting.AnswersAreConserved` | internal/agent/tunnel.go:137-219 | The answer to a command is in exactly one place: with the reader that took it, in the call's channel, or returned to the caller; before there is one there is none anywhere, and no reader holds a second. |
| `TunnelRouting.TableHoldsPendingCommands` | internal/agent/tunnel.go:183-193 | The pending table holds exactly the command IDs that are registered, unanswered and unfinished; it is empty when all calls have returned. |
| `TunnelRouting.PendingCallIsUnfinished` | internal/agent/tunnel.go:184-193 | A pending entry leads to the call that registered it, and that call has not returned. |
| `TunnelRouting.ChannelNeverFull` | internal/agent/tunnel.go:155-159 | The "result channel full" branch is unreachable: every send finds the channel empty and no result is ever dropped. |
| `TunnelRouting.LateResultReachesNobody` | internal/agent/tunnel.go:137-148 | A result for a command that is not pending, being late, duplicate or unknown, changes nothing. |
| `TunnelCalls.ReceivedIsThePayload` | internal/agent/tunnel.go:137-219 | What a call receives is the payload of a message for its own command ID, taken while it was pending: unchanged, or no output and an error for one that does not unmarshal. |
| `TunnelCalls.OutcomesHaveCauses` | internal/agent/tunnel.go:195-218 | A call ends as failed to send, cancelled, timed out or with a result exactly when its send failed, its context was cancelled, its timeout passed or it took a result. |
| `TunnelCalls.CallsUseTheConnFound` | internal/agent/tunnel.go:164-199 | A call about to send holds the connection registered last when it looked, and is told the agent is not connected exactly when none was present. |
| `TunnelRegistry.RunsKeepInv` | internal/agent/tunnel.go:70-131 | Every interleaving keeps the registry in agreement with the history of registrations, exits, messages and cleanups. |
| `TunnelRegistry.EntryIsLatestAndOpen` | internal/agent/tunnel.go:69-131 | In every reachable state the connection on file for a server is the one that registered last, it registered under that server, it has been closed neither by the manager nor by its own exit, and it is on file exactly while it has neither exited nor been found silent. |
| `TunnelRegistry.OldExitKeepsReplacement` | internal/agent/tunnel.go:126-131 | The exit path of a replaced connection closes that connection and changes nothing else. |
| `TunnelRegistry.CleanupRemovesTheSilent` | internal/agent/tunnel.go:265-278 | Cleanup removes an entry if and only if nothing was heard under its server ID for more than five minutes, and closes the connection it held. |
| `TunnelManager.ResultChan.TrySend` | internal/agent/tunnel.go:155-159 | The non-blocking send succeeds exactly when the one-slot buffer is free, and else leaves it alone. |
| `TunnelManager.Manager.Connect` | internal/agent/tunnel.go:70-83 | The registration section closes the connection on file and installs the new one; the heap stays the run of the history plus this step. |
| `TunnelManager.Manager.Touch` | internal/agent/tunnel.go:108-113 | A message touches the entry under the reader's server ID, whichever connection that holds by now. |
| `TunnelManager.Manager.TakeResult` | internal/agent/tunnel.go:138-148 | Gives a channel exactly when the command is registered, unanswered and unfinished, takes it out of the table, and otherwise changes nothing; the reader then holds the payload of the message, or no output and an error for one that does not unmarshal. |
| `TunnelManager.Manager.Deliver` | internal/agent/tunnel.go:150-159 | The send on the taken channel always succeeds, into an empty buffer. |
| `TunnelManager.Manager.Disconnect` | internal/agent/tunnel.go:126-131 | Deletes the entry if and only if this connection is the one that registered last, and closes the connection. |
| `TunnelManager.Manager.Cleanup` | internal/agent/tunnel.go:265-278 | The loop, in any order, keeps exactly the entries heard from within five minutes. |
| `TunnelManager.Manager.LookUp` | internal/agent/tunnel.go:164-170 | Finds an agent exactly when one is present, and then the connection that registered last, not closed by the manager. |
| `TunnelManager.Manager.Register` | internal/agent/tunnel.go:183-187 | The new channel goes into the table under an ID that was not there. |
| `TunnelManager.Manager.Receive` | internal/agent/tunnel.go:211-218 | What comes out of the channel is the first answer to the call's own command, and the payload of a message for it. |
| `TunnelManager.Manager.Leave` | internal/agent/tunnel.go:189-193 | The deferred delete removes the call's own entry, if still there, and no other. |
| `BruteForceRuns.CheckMatchesHistory` | internal/bruteforce/protector.go:96-142 | After any run with a non-decreasing clock, Check on the pruned and swept tables decides as the complete failure histories since the last reset do: allowed, reason, delay, lock time. |
| `BruteForceRuns.UnlockMatchesHistory` | internal/bruteforce/protector.go:217-250 | A manual unlock succeeds exactly when the history since the last reset stands for a lock that has not run out. |
| `BruteForceRuns.FailureLeavesTheWindow` | internal/bruteforce/protector.go:145-182 | After a failure the compacted lists of the account and of the IP are exactly the failures since the last reset inside the window, and a lock still in force is the last triggering failure plus the lockout. |
| `ProtectorFields.FailureLocks` | internal/bruteforce/protector.go:145-182 | A failure locks the account until LockoutDuration later if MaxAttempts are then on its list, and the IP until IPLockoutDuration later if IPMaxAttempts are on its; else the locks stay as they are. |
| `ProtectorFields.AccountIsLockedIff` | internal/bruteforce/protector.go:102-111 | On all runs an account is refused as locked exactly while the last of its failures since the reset that found MaxAttempts in the window is less than LockoutDuration ago, is told the end of that, and can be unlocked by hand through that end. |
| `ProtectorFields.IPIsBlockedIff` | internal/bruteforce/protector.go:129-139 | The same of an IP with IPMaxAttempts and IPLockoutDuration, for logins that are neither refused nor delayed for their account. |
| `ProtectorFields.RepeatedFailuresLock` | internal/bruteforce/protector.go:96-182 | After n failures of one user from one IP at one moment that user is refused exactly if n is at least MaxAttempts and for LockoutDuration, and another user from there exactly if n is at least IPMaxAttempts and for IPLockoutDuration. |
| `ProtectorFields.UserLogIsOfFailures` | internal/bruteforce/protector.go:149-154 | Each record of a user is a failure of that user, with the IP, error and time it was recorded with. |
| `ProtectorFields.IPLogIsOfFailures` | internal/bruteforce/protector.go:168-170 | Each record of an IP is a failure from that IP, with the error and time it was recorded with. |
| `ProtectorFields.RecentAreAfterTheCutoff` | internal/bruteforce/protector.go:301-321 | The recent attempts are exactly those after now minus the window, each as often as it was made. |
| `ProtectorFields.RefusalsReportThePrunedList` | internal/bruteforce/protector.go:103-110 | The attempts a refusal reports are the failures that were recent when the list was last pruned, by a failure or a cleanup. |
| `ProtectorFields.NoDelayUnlessProgressive` | internal/bruteforce/protector.go:112-126 | Without progressive delays no login is told one. |
| `ProtectorFields.CleanupForgets` | internal/bruteforce/protector.go:358-376 | A cleanup forgets exactly the entries without a recent failure whose lock, if any, has passed. |
| `BruteForceRuns.CleanupIsInvisible` | internal/bruteforce/protector.go:358-376 | Taking every cleanup out of a run changes no later verdict of Check. |
| `BruteForceRuns.UnlockedMeansFewRecent` | internal/bruteforce/protector.go:145-182 | If the lockout is at least the window and MaxAttempts at least 1, an account that is not locked has at most MaxAttempts - 1 recent failures, in every reachable state. |
| `BruteForceRuns.DelayIsExact` | internal/bruteforce/protector.go:323-334 | With progressive delays, for 1 to MaxAttempts - 1 failures the 64-bit shift and product give min(BaseDelay * 2^(n-1), MaxDelay) over the integers, when BaseDelay * 2^(MaxAttempts-2) fits 63 bits. |
| `BruteForceRuns.CheckDelayIsExact` | internal/bruteforce/protector.go:112-126 | If also the lockout is at least the window, the delay an admitted login is told is that minimum for the recent failures of its history, in every reachable state. |
| `BruteForceRuns.IdealDelayMonotone` | internal/bruteforce/protector.go:323-334 | That minimum never shrinks with more failures, for a base delay that is not negative. |
| `ProtectorLimits.ShortLockoutKeepsFailures` | internal/bruteforce/protector.go:145-182 | With a lockout shorter than a positive window, any number of failures at one moment are all still recent, and the account unlocked, once their lock has run out. |
| `ProtectorLimits.FewRecentOnAllRunsIff` | internal/bruteforce/protector.go:145-182 | For MaxAttempts of at least 1, on all runs an account that is not locked has at most MaxAttempts - 1 recent failures if and only if the lockout is at least the window, or the window is not positive. |
| `ProtectorLimits.ShortLockoutLosesTheDelay` | internal/bruteforce/protector.go:323-334 | With progressive delays of a positive base and maximum, a positive window and any lockout shorter than it, 65 or more failures leave a later login, once the lock has run out, with no delay at all instead of the documented one, because the shift has overflowed. |
| `ProtectorLimits.OverflowLosesTheDelay` | internal/bruteforce/protector.go:323-334 | With such delays and a product that does not fit 63 bits, a number of failures below MaxAttempts leaves the account unlocked and no delay told, however long the lockout: the first product past 63 bits wraps to a negative number. |
| `ProtectorLimits.IdealDelayOnAllRunsIff` | internal/bruteforce/protector.go:112-126 | With progressive delays of a base that is not negative and fits 63 bits, on all runs the delay told is the documented minimum if and only if the lockout is at least the window and BaseDelay * 2^(MaxAttempts-2) fits 63 bits (for MaxAttempts of at least 2), or the window is not positive, or the base is zero or the maximum not positive. |
| `ProtectorLimits.BlockedIPIsRefusedIff` | internal/bruteforce/protector.go:112-139 | On all runs a login from an IP whose history is locked is refused if and only if the history of the account is locked or gives no positive delay. |
| `ProtectorLimits.BlockedIPIsAdmitted` | internal/bruteforce/protector.go:112-139 | Such a login that is admitted, for configurations with both locks and positive progressive delays: others have got the IP blocked, and the user has failed once. |
| `BruteForceRuns.AtMostMaxPlusInFlight` | internal/api/auth.go:376-410 | With the gate of Login, MaxAttempts of at least 1, a lockout of at least the window and at most k overlapping logins, any window of that length in which no success and no successful unlock resets the user records at most MaxAttempts + k - 1 failures. |
| `ProtectorLimits.FailureBoundIsReached` | internal/api/auth.go:376-410 | For every MaxAttempts and k of at least 1 and every positive window there is a run that reaches that bound. |
| `ProtectorLimits.FailureBoundOnAllRunsIff` | internal/api/auth.go:376-410 | For MaxAttempts of at least 1, on all runs every such window keeps to the bound if and only if the lockout is at least the window, or the window is not positive. |
| `BruteForceRuns.WindowFills` | internal/bruteforce/protector.go:145-182 | Why: inside such a window every failure stays on record, and from the MaxAttempts-th on the account is locked to the end of the window and only logins already admitted can add failures. |
| `Protector.AccountState.PruneOld` | internal/bruteforce/protector.go:312-321 | The in-place compaction, which writes over the slice it reads, leaves exactly the attempts strictly inside the window, in order, in the same buffer. |
| `Protector.AccountState.CountRecent` | internal/bruteforce/protector.go:301-310 | The count is the number of attempts strictly inside the window. |
| `Protector.AccountState.Record` | internal/bruteforce/protector.go:152-157 | Append, prune and lock of one entry as its specification says, whether the slice grew in place or was reallocated. |
| `Protector.AccountState.Unlock` | internal/bruteforce/protector.go:221-230 | Resets the entry and reports success exactly when it is locked and the lock has not run out. |
| `Protector.Table.GetOrCreate` | internal/bruteforce/protector.go:292-299 | A known key gives its entry, an unknown one a new empty entry; no other entry changes. |
| `Protector.Table.Sweep` | internal/bruteforce/protector.go:363-368 | The loop, in any order, prunes every entry and deletes exactly those left empty with no lock in force. |
| `Protector.BruteForceProtector.Check` | internal/bruteforce/protector.go:96-142 | The method's verdict is the one of the complete histories. |
| `Protector.BruteForceProtector.Admit` | internal/api/auth.go:376-389 | Login's check: the call enters the history, and counts as in flight exactly when it is allowed. |
| `Protector.BruteForceProtector.RecordFailure` | internal/bruteforce/protector.go:145-182 | The two lists become exactly the failures of each history inside the window; the account is locked until now + LockoutDuration if MaxAttempts are on its list, the IP until now + IPLockoutDuration if IPMaxAttempts are, and else they keep their locks. |
| `Protector.BruteForceProtector.RecordSuccess` | internal/bruteforce/protector.go:185-202 | Forgets the account and the IP, and nothing else. |
| `Protector.BruteForceProtector.UnlockAccount` | internal/bruteforce/protector.go:217-232 | Succeeds exactly when the account's history is locked; the IPs stay as they are. |
| `Protector.BruteForceProtector.UnlockIP` | internal/bruteforce/protector.go:235-250 | Succeeds exactly when the IP's history is locked; the accounts stay as they are. |
| `Protector.BruteForceProtector.Cleanup` | internal/bruteforce/protector.go:358-376 | Sweeps both tables and keeps the heap equal to the run of the calls made. |
| `HubDelivery.RunsKeepInv` | internal/api/ws.go:117-289 | Every interleaving of registrations, broadcasts, single writes, publishing and taking messages on any number of hubs keeps the delivery invariant. |
| `HubDelivery.WrittenExactlyOnce` | internal/api/ws.go:200-289 | No connection is written a broadcast twice, and when a hub has finished with it exactly the connections it found have been written once. |
| `HubDelivery.PublishedAtMostOnce` | internal/api/ws.go:221-231 | A broadcast is published at most once; relaying never publishes. |
| `HubDelivery.OneHandlingPerHub` | internal/api/ws.go:238-289 | A published broadcast is either on its way to a hub or taken by it, once; the hubs that handle it are the origin and those that took it under another instance ID, so the origin never echoes. |
| `HubDelivery.ClientsAreSubscribed` | internal/api/ws.go:129-147 | A hub has a connection on file for an app exactly when the last thing said about the two is a registration. |
| `HubDelivery.NoEmptyApps` | internal/api/ws.go:138-146 | An app without connections has no entry. |
| `HubDelivery.DeliveredToSubscribers` | internal/api/ws.go:200-289 | When a hub that handled a broadcast at some step has finished, each connection has been written once if it was subscribed at that step to the app served there, and never otherwise. |
| `HubDelivery.SameAppEverywhere` | internal/api/ws.go:200-289 | With the message's AppID equal to the argument, the subscribers of that app are served alike on every hub. |
| `HubDelivery.CanFinish` | internal/api/ws.go:215-287 | From any run a hub can finish with a broadcast by writes alone. |
| `HubDelivery.OtherAppIsMissed` | internal/server/server.go:90-100 | Only then: for any other AppID in the message, such as none, there is a finished run in which a subscriber on another hub is missed. |
| `WebSocketHub.WriteAll` | internal/api/ws.go:215-219 | Whatever the order, each connection of the snapshot gets the message once. |
| `WebSocketHub.WSHub.Register` | internal/api/ws.go:129-136 | The connection joins the set of its app; no other set changes. |
| `WebSocketHub.WSHub.Unregister` | internal/api/ws.go:137-147 | The connection leaves the set of its app, and an empty set leaves the map. |
| `WebSocketHub.WSHub.Broadcast` | internal/api/ws.go:200-232 | Each connection of the app gets the message once, no other anything; with Redis one message is published, under the hub's instance ID and the message's own app ID. A message that does not marshal reaches nobody; one that does not marshal with its instance ID is not published. |
| `WebSocketHub.WSHub.Relay` | internal/api/ws.go:255-287 | A payload that does not unmarshal and the hub's own message are skipped; any other that marshals goes once to each connection of the app it names, and nothing is published. |
| `WebSocketHub.WSHub.ClientCount` | internal/api/ws.go:302-306 | The number of connections on file, zero exactly when the app has no entry. |
| `WebSocketHub.BroadcastAcross` | internal/api/ws.go:200-289 | One broadcast relayed to both of two hubs reaches each of their subscribers once and is published once. |
| `AuditChain.Chain.AppendHash` | internal/audit/chain.go:50-69 | Inserts the hash at its place in ID order with the hash of the row before, if any, as previous hash, or fails on an ID that has one. |
| `AuditChainAppends.PositionCountsBelow` | internal/audit/chain.go:54-60 | The row looked up is the one with the greatest smaller ID: the IDs below the new one are exactly those before its place. |
| `AuditChainAppends.LessIsByBytes` | internal/audit/chain.go:55-57 | ID order is that of the bytes: at the first difference, or by length where there is none. |
| `AuditChain.Chain.VerifyChain` | internal/audit/chain.go:82-136 | One result per log, in order: its ID, the hash of its text after the hash stored before it (or expected, where none is stored), its own stored hash or none, and valid exactly when the two are there and equal; these are the flagged ones of the recursive definition. |
| `AuditChainLemmas.DataDetermines` | internal/audit/chain.go:36-46 | The hashed text determines the previous hash and the record, for bar-free hashes, IDs and times, whatever the action. |
| `AuditChainLemmas.IdealHashExists` | internal/audit/chain.go:36-46 | A collision-free function with bar-free, non-empty results exists, so the lemmas about edits and appends speak of something. |
| `AuditChainLemmas.AllValidIffFold` | internal/audit/chain.go:103-135 | For any hash function and any tables, everything verifies if and only if the stored hashes are the left fold of ComputeHash from the empty genesis hash. |
| `AuditChainLemmas.EditFlagsTheRecord` | internal/audit/chain.go:103-135 | On an honest chain (a collision-free hash of bar-free, non-empty results; distinct bar-free IDs, bar-free times; stored hashes that are the fold) editing a record's action or time flags exactly that record. |
| `AuditChainLemmas.OverwriteFlagsTwo` | internal/audit/chain.go:126-135 | On an honest chain, overwriting a stored hash with another value flags exactly its record and the next, where there is one. |
| `AuditChainLemmas.RemovalFlagsTheRecord` | internal/audit/chain.go:126-135 | On an honest chain, removing a stored hash flags exactly its record. |
| `AuditChainLemmas.DeletionFlagsTheSuccessor` | internal/audit/chain.go:103-135 | On an honest chain, deleting a log row flags exactly its successor, so deleting the last row flags nothing. |
| `AuditChainAppends.FlaggedIffDisplaced` | internal/audit/chain.go:50-69 | In tables made by appends, with a collision-free hash of bar-free results and bar-free IDs and times, a record is flagged exactly when another has come between it and the row its hash was made from. |
| `AuditChainAppends.AppendInOrder` | internal/audit/chain.go:50-69 | Under the same conditions an append keeps all links in order exactly when they were and the new ID is the greatest. |
| `AuditChainAppends.VerifiesIffIncreasing` | internal/audit/chain.go:50-136 | Under the same conditions a chain made by appends of distinct IDs verifies everywhere if and only if the IDs were appended in strictly increasing order. |
| `RefreshStore.StoreKeepsAgreementIff` | internal/auth/refresh_token.go:186-196 | Store keeps "a token is in a user's set exactly when it is that user's" if and only if its ID is new or already the same user's. |
| `RefreshStore.RunsKeepAgreement` | internal/auth/refresh_token.go:186-301 | Store with such IDs, Revoke, RevokeAllForUser and cleanup keep it over any run. |
| `RefreshStore.RevokeAllIsExact` | internal/auth/refresh_token.go:227-238 | When the two maps agree, RevokeAllForUser removes exactly the tokens of that user and leaves the others' sets alone. |
| `RefreshStore.CountBoundsTheList` | internal/auth/refresh_token.go:240-265 | When the two maps agree, Count is at least the length of the list, and equal exactly when no token of the user in the store has expired. |
| `RefreshStore.CleanCountsTheList` | internal/auth/refresh_token.go:240-301 | When the two maps agree, Count and the list are equal in length right after a cleanup at the same time. |
| `RefreshStore.CountCounts` | internal/auth/refresh_token.go:240-244 | When the two maps agree, Count is the number of the user's tokens in the store. |
| `RefreshStore.GoodThroughExpiresAt` | internal/auth/refresh_token.go:198-301 | A token in the store is retrieved, survives a cleanup and, when the maps agree, is listed for its user and nobody else, exactly up to and including its ExpiresAt. |
| `RefreshStore.StoredIsServed` | internal/auth/refresh_token.go:186-301 | Over runs, an entry stored is what every Retrieve gives, and is listed, up to its ExpiresAt and never after, until its ID is overwritten or revoked or its user's tokens are, whatever else happens and whatever cleanups ran no later. |
| `RefreshStore.RevokedStaysRevoked` | internal/auth/refresh_token.go:198-238 | A token that is not in the store is never retrieved until an entry is stored under its ID. |
| `RefreshStore.CleanupIsInvisible` | internal/auth/refresh_token.go:283-301 | When the two maps agree, a cleanup changes no Retrieve and no ListForUser at that time or later, whatever operations that keep them so come in between. |
| `MemoryStore.MemoryRefreshTokenStore.Store` | internal/auth/refresh_token.go:186-196 | Puts the entry under its ID and the ID into its user's set. |
| `MemoryStore.MemoryRefreshTokenStore.Retrieve` | internal/auth/refresh_token.go:198-210 | Gives the entry exactly for a token in the store up to and including its ExpiresAt. |
| `MemoryStore.MemoryRefreshTokenStore.Revoke` | internal/auth/refresh_token.go:212-225 | Takes the token out of both maps, or changes nothing if it is unknown. |
| `MemoryStore.MemoryRefreshTokenStore.RevokeAllForUser` | internal/auth/refresh_token.go:227-238 | The loop, in any order, takes out the tokens of the user's set and the set. |
| `MemoryStore.MemoryRefreshTokenStore.ListForUser` | internal/auth/refresh_token.go:246-265 | Each unexpired token of the user is listed once, as stored, and no other. |
| `RefreshStore.RunsKeepKeys` | internal/auth/refresh_token.go:186-301 | After any run of operations, whatever was stored, every entry stands under its own ID. |
| `MemoryStore.MemoryRefreshTokenStore.Cleanup` | internal/auth/refresh_token.go:283-301 | The loop, which deletes from both maps in any order, leaves exactly the tokens whose ExpiresAt has not passed. |
| `Rotation.RunsKeepInv` | internal/api/refresh.go:101-148 | Every interleaving of logins, the three steps of refreshes, logouts and cleanups keeps the two maps in agreement and every token with its login. |
| `Rotation.DescendantsKeepUserAndRole` | internal/api/refresh.go:135-148 | Every live token has the user and role of the login it descends from, interleaved or not. |
| `Rotation.TokenIsAsPut` | internal/api/refresh.go:135-148 | A live token is as some login or refresh of the run put it: its ID, the device and address of the request, its moment, seven days to live, and at a login the user and role of it. |
| `Rotation.OwnerIsOfLogin` | internal/api/auth.go:441-451 | The user and role of the login a token descends from are those of a login of the run. |
| `Rotation.RevocationsTakeEffect` | internal/api/refresh.go:163-181 | Ending a session removes that token, logging out everywhere the user's tokens, a cleanup the expired ones, and no other. |
| `Rotation.ExchangedOnceIff` | internal/api/refresh.go:101-117 | In a run in which every request has been answered and every successor generated, each refresh token has been exchanged for at most one successor if and only if no request fetched it between another's fetch and revoke of it. |
| `Rotation.ExchangedAtMostOnce` | internal/api/refresh.go:101-148 | In any run without such overlapping fetches, finished or not, no refresh token is exchanged for two successors. |
| `Rotation.OverlapLetsExchangeTwice` | internal/api/refresh.go:101-148 | From any run in which two requests with one token are under way there is a way on in which it is exchanged for two successors. |
| `Rotation.AcceptedAreAccountedFor` | internal/api/refresh.go:101-148 | In every run, the times a token was fetched live are the successors it was exchanged for, the requests that failed to generate one, and those still under way. |
| `Rotation.AcceptedOnceIff` | internal/api/refresh.go:101-117 | In every run each token is fetched live at most once if and only if no fetches overlapped. |
| `Rotation.SerialHasNoOverlap` | internal/api/refresh.go:101-148 | Refreshes served one at a time have no overlapping fetches. |
| `Rotation.OneLiveTokenPerLogin` | internal/api/refresh.go:101-148 | In runs without overlapping fetches at most one live token descends from any one login. |
| `Rotation.DoubleExchange` | internal/api/refresh.go:101-148 | From any run with a live token, two overlapping requests get two live successors of one login. |
| `Rotation.FailureEndsTheLogin` | internal/api/refresh.go:114-133 | In runs without overlapping fetches, when no successor can be generated the login is over, for the old token is already revoked. |
| `Rotation.OverForGood` | internal/api/refresh.go:101-148 | A login with no live token and none being exchanged never has one again. |
| `Rotation.LogoutAllEndsSessions` | internal/api/refresh.go:163-181 | Logging out everywhere while no refresh of the user is under way ends all the user's logins for good. |
| `Rotation.FlightOutlivesLogout` | internal/api/refresh.go:101-148 | Only then: a refresh under way at the logout can still bring its login a live token. |
| `RefreshHandler.RefreshToken` | internal/api/refresh.go:74-159 | Unauthorized without a token, not configured without a store, refused without a live token; the store ends up as the steps of the rotation model leave it, from any state with that store: a fetch alone, or fetch, revoke, and issue or fail. |
| `RefreshHandler.HandlerIsTheSteps` | internal/api/refresh.go:101-148 | Those steps can be taken in a row; they leave the store alone without a live token, else revoke it, and store a successor with the same user and role, the request's device and address and seven days to live, unless generating failed. |
| `Splitting.SplitString` | internal/auth/refresh_token.go:332-343 | The loop computes the recursive split at the first n - 1 separators. |
| `Splitting.JoinSplit` | internal/auth/refresh_token.go:332-343 | Joining the parts with the separator gives back the text, for every text and every n. |
| `Splitting.SplitShape` | internal/auth/refresh_token.go:332-343 | There are min(separators + 1, max(n, 1)) parts, and all but the last are free of the separator. |
| `Splitting.SplitIsUnique` | internal/auth/refresh_token.go:332-343 | Those two properties determine the parts. |
| `Decimals.ParsesPrinted` | internal/auth/refresh_token.go:345-351 | A printed integer reads back exactly when it fits 64 bits. |
| `Decimals.PrintedInDecimal` | internal/auth/refresh_token.go:73-75 | Printing puts the most significant digit first, no zeros before it and a minus in front. |
| `Decimals.OnlyDigitsParse` | internal/auth/refresh_token.go:345-351 | Only non-empty texts of digits read as a number without a sign. |
| `Decimals.SignedParses` | internal/auth/refresh_token.go:345-351 | After a sign the digits are read, negated for a minus; what does not fit 64 bits reads as none. |
| `TokenCodec.ParsesTime` | internal/auth/refresh_token.go:309-316 | A time whose Unix seconds fit 64 bits, stored as such, reads back to the second, since no RFC 3339 date looks like it. |
| `TokenCodec.RoundTripIff` | internal/auth/refresh_token.go:72-75 | A stored entry with times whose Unix seconds fit 64 bits always parses; it parses to the same entry with its times to the second, or to the same four text fields, exactly when none of the four has a bar in it. |
| `TokenCodec.EncodedFields` | internal/auth/refresh_token.go:72-75 | The six parts of the text for an entry without bars are its user, role, device and address and its two times in whole seconds, in that order. |
| `TokenCodec.ParsedFields` | internal/auth/refresh_token.go:304-326 | A text is read as nothing with fewer than five bars, else as its six parts in that order, each time as a date other than the zero time, or else decimal seconds, or else the epoch. |
| `RateLimiting.AllowsAlike` | internal/api/twofa.go:544-556 | After any run with a non-decreasing clock, cleanups or not, and for any maximum, both limiters give the same answer. |
| `RateLimiting.RunsSimulate` | internal/api/auth.go:58-72 | Why: the register count is the two-factor count up to the maximum, with the same expiry, and entries cleaned up here have expired there. |
| `RateLimiting.RemainingAlikeIff` | internal/api/twofa.go:559-573 | After any run they report the same remaining attempts if and only if the maximum is positive or no window is open. |
| `RateLimiting.RemainingAreAdmitted` | internal/api/twofa.go:544-573 | For a positive maximum and window lengths that are not negative, as many further attempts as remain are all admitted now, and then none is. |
| `RateLimiting.RemainingAlikeOnAllRunsIff` | internal/api/auth.go:75-84 | They report the same on all runs if and only if the maximum is positive, or windows have negative length. |
| `RateLimiting.CleanupIsInvisible` | internal/api/twofa.go:575-585 | Leaving every cleanup out of a run changes no answer and no remaining count. |
| `RateLimiting.IntervalAdmitsLessThanTwice` | internal/api/twofa.go:544-556 | Any interval of the length of a window, if not negative, ends included and wherever it begins, admits at most 2 * max - 1 attempts of an IP, or one if max is not positive. |
| `RateLimiting.BoundIsReached` | internal/api/twofa.go:544-556 | For every positive maximum and window length that bound is reached. |
| `Limiters.TwoFARateLimiter.Allow` | internal/api/twofa.go:544-556 | Answers and counts as its specification says; the entry found is changed in place and no other. |
| `Limiters.TwoFARateLimiter.Remaining` | internal/api/twofa.go:559-573 | The maximum without an open window, else what is left of it, never negative. |
| `Limiters.TwoFARateLimiter.Cleanup` | internal/api/twofa.go:575-585 | The loop, in any order, leaves exactly the entries that have not expired. |
| `Limiters.RegisterRateLimiter.Allow` | internal/api/auth.go:58-72 | Answers and counts as its specification says; a refusal changes nothing. |
| `Limiters.RegisterRateLimiter.Remaining` | internal/api/auth.go:75-84 | The maximum without an open window, else the maximum less the count. |
| `Tickets.RunsKeepInv` | internal/auth/ticket.go:42-111 | Every interleaving of generation, the locked and the unlocked half of validations, and cleanup keeps the ticket invariant. |
| `Tickets.AuthenticatesOnce` | internal/auth/ticket.go:65-82 | A ticket authenticates at most once, as the user and role it was issued for, and never after its expiry. |
| `Tickets.NeverOverCapacity` | internal/auth/ticket.go:42-60 | The number of stored tickets never exceeds the maximum. |
| `Tickets.UnusedIsKept` | internal/auth/ticket.go:101-111 | With a non-decreasing clock nothing but its own expiry or a validation takes an issued ticket out of the store. |
| `Tickets.UnusedIsGood` | internal/auth/ticket.go:65-82 | With a non-decreasing clock a ticket nobody has taken, validated in time, authenticates with its own user and role, whatever was swept before. |
| `Tickets.AuthenticatesAsGenerated` | internal/auth/ticket.go:42-82 | Who authenticates with a ticket is the user, with the role, that a GenerateTicket of the run was called with for it, within the time it was called with. |
| `Tickets.GeneratedIsGood` | internal/auth/ticket.go:42-82 | With a non-decreasing clock a ticket generated below capacity, never taken and validated within its time authenticates the user and role it was generated for. |
| `TicketStore.WSTicketStore.GenerateTicket` | internal/auth/ticket.go:42-60 | Refused exactly at capacity, changing nothing; otherwise the new ticket is stored under the new ID with the user, the role, now, and now plus the given time. |
| `TicketStore.WSTicketStore.Consume` | internal/auth/ticket.go:66-75 | The locked half takes the ticket out, if it is there, and hands its entry to this call. |
| `TicketStore.WSTicketStore.Finish` | internal/auth/ticket.go:77-81 | The unlocked half authenticates exactly when the entry taken has not expired. |
| `TicketStore.WSTicketStore.ValidateTicket` | internal/auth/ticket.go:65-82 | A validation nobody comes between: the ticket is gone afterwards, and the outcome is that of its entry. |
| `TicketStore.WSTicketStore.Cleanup` | internal/auth/ticket.go:101-111 | The loop, in any order, leaves exactly the tickets whose expiry has not passed. |
| `Buckets.AggregateByInterval` | internal/api/monitor_query_api.go:114-182 | One row for each group of the recursive grouping, in order, for the interval the text stands for: the time of its first result, its number of results, ups and downs, and averages that give back its sums. |
| `Buckets.RowsAddUp` | internal/api/monitor_query_api.go:162-181 | The rows' totals, ups and downs add up to those of the input. |
| `Buckets.OtherIntervals` | internal/api/monitor_query_api.go:119-129 | A duration that can be read and is not zero is the interval; zero, a text without a d at the end and one whose front is no number stand for five minutes. |
| `Buckets.DaysIff` | internal/api/monitor_query_api.go:119-129 | A number of days, not zero, before a d that is no other duration is read as those days if and only if they fit a 64-bit duration; beyond that the product wraps. |
| `Buckets.RowAverages` | internal/api/monitor_query_api.go:164-181 | A row's average latency and uptime give back its sums, and the uptime is between 0 and 100. |
| `Buckets.GroupsPartition` | internal/api/monitor_query_api.go:142-160 | For any input and interval the buckets are contiguous pieces of the input in its order: nothing lost, doubled or moved. |
| `Buckets.BucketsAreGreedy` | internal/api/monitor_query_api.go:142-157 | For any input the results of a bucket behind its first are less than the interval after it, and each next bucket begins at the first result that is not, or right behind one at the zero time. |
| `Buckets.TotalsAreConserved` | internal/api/monitor_query_api.go:142-160 | For any input and interval the totals, ups, downs and latency sums of the buckets add up to those of the input, and no bucket is empty. |
| `Buckets.BucketsAreSpaced` | internal/api/monitor_query_api.go:142-160 | For ascending non-zero timestamps and a positive interval each bucket spans less than the interval, and any two begin at least the interval apart. |
| `Buckets.BucketsAreFewest` | internal/api/monitor_query_api.go:142-160 | For such input the buckets' beginnings cover all results with one half-open interval each, and no cover by intervals of that length has fewer. |
| `Retention.ApplyRetention` | internal/backup/retention.go:51-81 | The loop removes exactly the specified files and counts them, with removals that may fail; with both rules off nothing. |
| `Retention.FailuresLeaveFewOrAllTried` | internal/backup/retention.go:59-81 | Whatever fails, at most the count of files is left, if that rule is on, or every file was tried; expired files are always tried, others only while more than the count were left. |
| `Retention.LocalRemovesPrefix` | internal/backup/retention.go:51-81 | If all removals succeed, oldest first, exactly the prefix goes whose length is the larger of the surplus over the count and the number expired, counting only rules that are on; these are the files in the surplus and those older than the cutoff. |
| `Retention.ApplyCloudRetention` | internal/backup/cloud_storage.go:170-195 | The loop, after its early return, removes exactly the specified objects, with removals that may fail. |
| `Retention.CloudRemovesFirstAndExpired` | internal/backup/cloud_storage.go:170-195 | Beyond count objects and with removals succeeding, the first n - count objects of the listing go and all older than the cutoff if that rule is on, in whatever order they are listed. |
| `Retention.OnlyExpiredGo` | internal/backup/cloud_storage.go:177-195 | With the count rule off and removals succeeding, exactly the expired files go, in whatever order they come. |
| `Retention.OldestFirstAgreesIff` | internal/backup/cloud_storage.go:170-195 | With removals succeeding, on an oldest-first listing both policies do the same if and only if the count rule is off, or there are more than count objects, or none has expired. |
| `Retention.NewestFirstAgreesIff` | internal/backup/s3_storage.go:326-329 | With removals succeeding and distinct paths, on the newest-first listing that List supplies both policies do the same if and only if the count rule is off, or there are up to count objects with none expired, or more with all expired: otherwise the newest are removed, not the oldest, or the expired are kept. |
| `Scopes.SplitBySpace` | internal/api/oauth2_api.go:487-502 | The loop computes the words between spaces. |
| `Scopes.SplitScopes` | internal/api/oauth2_api.go:471-484 | The loop with its seen map keeps each word once. |
| `Scopes.ScopesAreFirsts` | internal/api/oauth2_api.go:471-484 | The scopes are exactly the words of the text, non-empty and space-free, no two the same, in the order of their first occurrences. |
| `Scopes.ResplitIsIdentity` | internal/api/oauth2_api.go:471-502 | Joining the scopes with spaces and splitting again gives the same scopes. |

## Left out

- HTTP, JSON, gin, gorm, WebSocket and Redis internals, logging and metrics: the models begin at the calls that change
  state. Whether a message marshals is a parameter.
- Real time and scheduling: every operation gets its time as a parameter. Lemmas that need a clock that does not go
  back say so. Adding a duration to a time is exact; `time.Time.Sub` saturates as in Go where it decides something
  (`Buckets.dfy`).
- Termination of waiting: timeouts and cancellations may happen at any moment, and nothing says when.
- The keyed hash: any function. Lemmas about edits ask that it have no collisions and give non-empty texts without
  bars, which HMAC-SHA256 in hex meets only up to collisions nobody knows. ID order is byte order on the ID texts.
- `IsConnected`, `ListAgents`, `GetAccountStatus`, `ListLockedAccounts`, `ListBlockedIPs`, `GetRecordHash`: reads with
  nothing to prove beyond the invariants.
- The read loop of an agent connection: any reader may send any message at any time once registered, even after its
  exit, which covers more interleavings than the program has.
- Lock times of a protector entry that ran out: a stale lock time and none are not told apart, since nothing that
  reads them does.
- `WSHub.Close` and the connections it closes: a write to a connection counts whether or not the socket takes it, as the
  code ignores write errors but for a log line.
- `internal/auth/refresh_token.go:64-167`: the Redis store itself, of which only the text form of an entry is
  modelled; expiry of keys is Redis behaviour.
- bcrypt, JWT, TOTP, AES-GCM and the drawing of random identifiers: library behaviour.
- RefreshHandler.RefreshToken: the branches for store errors are not modelled, because the memory store returns none.
- Counters are unbounded integers: the 64-bit count of a limiter would take 2^63 attempts in one window to wrap. The
  delay of the protector is in 64-bit arithmetic.
- Latencies are reals, so sums do not depend on their order as floating-point sums may.
- `time.ParseDuration` and `time.Parse`: parameters of the members that read durations and dates.
- Listing and sorting of backups: the loops get the sorted list, and files with equal times may be in either order.
- `internal/backup/encrypt.go`: its framing is settled by one constant, a header size of 8 for a header text of 7
  bytes, with which decrypting does not undo encrypting.
- `internal/audit/compliance.go`, and `internal/backup/s3_storage.go` beyond the order of its listing: database and
  HTTP requests.
- Pagination, size parsing, permission checks, backup codes: short functions with no invariant of their own.
