# Verified models of the F8 asset cloud, signal engine and protocol scripts

A Dafny model of the parts of this repository whose correctness is not visible from one function at a time, with
proofs that hold for every input, every run and every interleaving. `dafny verify dfyconfig.toml` checks it; it
does not execute the programs it models.

What is modelled, file by file:

- `DependencyOrder.dfy`, `NameOrder.dfy`: the order in which the protocol header generator emits structs. Kahn's loop
  is a method over a map and lists that it changes in place; which order it produces is stated without it.
- `DesktopSessions.dfy`, `DesktopCodes.dfy`: the desktop login protocols of the asset-cloud worker as state machines.
  One awaited SQL statement is one step, any number of requests may be between two of their statements, and a run is
  any sequence of steps. The tables are classes whose methods are the statements; each method's contract says which
  step it takes, so every theorem about runs is a theorem about every interleaving of method calls.
- `WorkerRateLimit.dfy`, `WorkerRateFlights.dfy`: the request limiter, compared with one that remembers every accepted
  call; then with calls that overlap.
- `AssetStore.dfy`, `AssetRaces.dfy`: the versioned asset repository as a class over its tables, for serial calls; then
  the statements of calls on one asset in any interleaving.
- `LikeEscape.dfy`: LIKE patterns, and the listing filters built from them.
- `LuaBridge.dfy`, `JsonValue.dfy`: JSON values on their way to a Lua script and back.
- `DataPickPath.dfy`, `DataPickNode.dfy`, `Decimal.dfy`: the data-pick path language and the node that caches.
- `SkeletonPacket.dfy`: the binary skeleton packet, its builder and its decoder.
- `RateLimiter.dfy`, `RateSettling.dfy`, `RangeMap.dfy`: two signal operators, over real numbers.
- `AudioChunker.dfy`: the audio accumulator that cuts deliveries into chunks.
- `PasswordHash.dfy`: base64url, the stored hash record and the constant-time comparison.
- `PcapReplay.dfy`: choosing and batching captured packets.
- `Sequences.dfy`, `Reals.dfy`, `Wrappers.dfy`: small shared definitions.

Assumptions that stand in for code outside the model:

- Generated ids, codes and tokens are new, and different tokens have different SHA-256 hashes. Session rows are found
  by hash, hashes are unique, and rows that refer to a user go with it (`0001_init.sql`).
- In `WorkerRateLimit` and `AssetStore` calls are serial: nothing else happens between the statements of a call. What
  becomes of their guarantees when calls overlap is the subject of `WorkerRateFlights` and `AssetRaces`.
- Decompressing undoes compressing. Key derivation, the conversion of a numeric text to an integer and the coercion
  of picked values are parameters; of the numeric conversion only that it reads decimal texts is used.
- Which byte strings are valid UTF-8 is a parameter of the packet decoder. Floats there are their bit patterns; in the
  signal operators and the packet times they are reals.

Where the code does not do what one would expect of it, the code is modelled and the exact condition is proved:

- A refresh token selected while valid can be redeemed after it has expired (`RedeemedAfterExpiry`), exactly when the
  row has expired by the time of the UPDATE (`RedeemedInTimeIff`, `DesktopSessions.AllInTimeIff`). In the same way a
  code can be claimed after it has expired (`ClaimedAfterExpiry`, `ClaimedInTimeIff`, `DesktopCodes.AllInTimeIff`).
- Revoking ends a live session exactly when the token is the newest of that session (`DiesIffEnded`,
  `SpentTokenIsInert`).
- The limiter accepts a first call even when its maximum is not positive (`MaximumKeptIffPositive`), and the daily
  cleanup changes decisions exactly for windows longer than a day (`CleanupsChangeNoDecision`,
  `CleanupsMatterBeyondRetention`). Overlapping calls exceed the maximum (`TwoLookFirst`); with cleanups at any moment
  it is kept exactly under the condition of `AlwaysKeptIffSafe`.
- Administrators change and delete assets of any owner; nobody else does (`OthersChangeOnlyVisibility`,
  `OnlyAdministratorsAlter`). Of all calls that fail one has written before, an administrator's change of the
  visibility of an asset whose payload cannot be shown (`ManagedShownIff`).
- Overlapping updates never store one version number twice (`NumbersStoredOnce`), but they can leave the head behind a
  stored version (`OverlapBreaks`), and a call that stops half-way can strand an asset (`OneCrashStrands`,
  `StrandedStays`); neither can happen exactly under the condition of `AlwaysWholeIff`.
- The second permission check of a version read can never decide anything (`SecondTestIsIdle`). The COALESCE of an
  update never changes a subscription, because a subscription is never stored without a last-seen version
  (`UpdateDoes`). A variant or component whose payload is shaped like a stored record can be created and never read or
  forked (`CreatedReadableIffProper`). A fork without a name of its own fails when the source's name leaves no room for
  " Copy" (`ForkDoes`).
- An index of 2^64 or more in a path wraps around (`HugeIndexWraps`).
- A Lua table with the keys 1 and "1" loses one of them (`KeysMayCollide`). Entries are lost exactly when some number
  key is also there as a string key (`LuaBridge.NothingLostIff`), and the order of the entries shows exactly when
  somewhere in a value entries that come under one text are read differently (`OrderMattersIff`).
- With an acceleration limit the output can leave a target it has reached (`ReachedAndLeft`). It stays exactly when
  the first reading after that can brake it or a bound pins it (`KeptIffKeptOnce`). In the end it settles, exactly
  when both rates are positive or the range is a point (`SettlesIff`).
- An execution id and a timestamp of the same number are one context of a data-pick node (`ExecutionAndTimeCollide`),
  which is exactly a node that repeats itself within a context (`Drive`); that does not show as long as inputs do not
  change within a context (`MemoryNeverShows`).
- No bytes have no text that decodes (`BytesComeBack`), and different texts decode to the same bytes
  (`SomeTextsHaveLooseBits`).
- A chunk dropped for want of a valid publisher leaves no gap in the numbers of the others (`ChunkNumbers`), and
  every drop is a loss (`AudioChunker.NothingLostIff`, `AllPublishedIff`).
- Duplicates are looked for after addresses are rewritten (`HostsMergeIffReplaced`).

## Model

| member | source | states |
|---|---|---|
| DependencyOrder.LastSegment | scripts/gen_cpp_protocol_models.py:362 | the part of a reference path after its last slash: a suffix without slash that a slash precedes, or the whole path |
| DependencyOrder.DepsFor | scripts/gen_cpp_protocol_models.py:352-372 | the dependency set holds exactly the other structs some property names by its own reference or by that of its array items; a property with a reference is not also read as an array |
| DependencyOrder.MarkPlaced | scripts/gen_cpp_protocol_models.py:383-388 | striking a placed struct from every dependency set, in whatever order the sets are visited, leaves each set without it and the ready list sorted and complete |
| DependencyOrder.StructOrder | scripts/gen_cpp_protocol_models.py:376-392 | the loop emits an order that begins with the lexicographically least dependency order of everything orderable and ends with the cyclic residue in name order |
| DependencyOrder.EmitOrder | scripts/gen_cpp_protocol_models.py:344-392 | from schemas to emission: the dependency map has exactly the structs as keys and exactly the wanted references as entries, and the emitted order is the one promised for that map |
| DependencyOrder.HeadIsLeast | scripts/gen_cpp_protocol_models.py:380-382 | the head of the sorted ready list is available and no available struct has a lesser name |
| DependencyOrder.StuckReachesCycle | scripts/gen_cpp_protocol_models.py:390-392 | if each of a set of structs waits for another of the set, a cycle can be reached from every one of them |
| DependencyOrder.PlacedReachesNoCycle | scripts/gen_cpp_protocol_models.py:380-389 | from a struct emitted after its dependencies no cycle can be reached |
| DependencyOrder.LeftoverIsResidual | scripts/gen_cpp_protocol_models.py:390-392 | what the loop leaves over is exactly the set of structs from which a cycle can be reached; what it placed is exactly the rest |
| DependencyOrder.GreedyIsLexLeast | scripts/gen_cpp_protocol_models.py:377-389 | always taking the least available name gives an order no other dependency order precedes lexicographically |
| DependencyOrder.EmissionIsUnique | scripts/gen_cpp_protocol_models.py:374-392 | the dependency map alone fixes the emitted list; no set or dictionary iteration order shows in it |
| DependencyOrder.EmissionIsPermutation | scripts/gen_cpp_protocol_models.py:374-392 | every struct is emitted exactly once |
| DependencyOrder.AcyclicEmission | scripts/gen_cpp_protocol_models.py:376-392 | on an acyclic map the whole list is the lexicographically least dependency order |
| DependencyOrder.EmissionTopologicalIffAcyclic | scripts/gen_cpp_protocol_models.py:376-392 | the list puts every struct behind its dependencies exactly when the map is acyclic |
| DependencyOrder.IndependentInOrder | scripts/gen_cpp_protocol_models.py:376-389 | structs that depend on nothing come out in code-point order, said of the characters of their names |
| NameOrder.SortNamesOfDistinct | scripts/gen_cpp_protocol_models.py:377-392 | sorting distinct names gives the strictly increasing list of the same names |
| NameOrder.StrictlySortedUnique | scripts/gen_cpp_protocol_models.py:392 | a strictly increasing list of names is fixed by its set of names |
| NameOrder.LessIff | scripts/gen_cpp_protocol_models.py:377-392 | one name comes before another exactly when it is a proper prefix of it or has the smaller character where they first differ |
| DesktopSessions.RefreshTokenRedeemedOnce | packages/f8assetcloud_worker/src/app.js:2309-2376 | in every interleaving of refreshes, revocations, purges, cron cleanups and user removals, no refresh token is redeemed twice |
| DesktopSessions.RedemptionSpendsTheNewest | packages/f8assetcloud_worker/src/app.js:2309-2376 | each redemption spends the newest token its session had at that moment, and it was selected less than 30 days after that token was made; so the tokens of a session form one chain |
| DesktopSessions.OnlyTheNewestPasses | packages/f8assetcloud_worker/src/app.js:2226-2245 | in every reachable state the refresh check and the access check pass exactly for the newest pair of a session that is not revoked, for 30 days and for one hour after the pair was made |
| DesktopSessions.SpentTokenIsInert | packages/f8assetcloud_worker/src/app.js:2378-2387 | a redeemed refresh token is found by no SELECT, rotates no row, and revoking with it changes nothing |
| DesktopSessions.OlderTokensSpent | packages/f8assetcloud_worker/src/app.js:2309-2376 | every token of a session but its newest has been redeemed |
| DesktopSessions.DiesIffEnded | packages/f8assetcloud_worker/src/app.js:2378-2404 | whatever statement comes, a live session is dead after it exactly when it revokes with the newest token, purges more than 30 days after that token was made, or clears or removes the owner the session was issued to |
| DesktopSessions.RowGoesIff | packages/f8assetcloud_worker/src/app.js:2389-2397 | a row is deleted exactly by such a purge or with its owner, or by any purge once it is revoked |
| DesktopSessions.DeadStaysDead | packages/f8assetcloud_worker/src/app.js:2389-2397 | no step revives a revoked or deleted session or logs anything for it |
| DesktopSessions.DeadForever | packages/f8assetcloud_worker/src/app.js:2309-2404 | once revoked or deleted, a session passes no refresh and no access check in any continuation of the run |
| DesktopSessions.RedeemedInTimeIff | packages/f8assetcloud_worker/src/app.js:2343-2367 | a redemption spends a token that was selected in time; it comes late exactly when 30 days or more lie between the making of the token and the UPDATE, which is when the row it changes has expired |
| DesktopSessions.AllInTimeIff | packages/f8assetcloud_worker/src/app.js:2343-2367 | in a run every redemption is in time exactly when every rotating UPDATE met a row that had not expired |
| DesktopSessions.RedeemedAfterExpiry | packages/f8assetcloud_worker/src/app.js:2343-2367 | late redemptions do occur: a legal run with one |
| DesktopSessions.RunKeeps | packages/f8assetcloud_worker/src/app.js:2226-2404 | every interleaving keeps the invariant: rows hold the newest pair of their session, no token serves two sessions, history is linear |
| DesktopSessions.StepKeeps | packages/f8assetcloud_worker/src/app.js:2226-2404 | every single statement keeps that invariant |
| DesktopSessions.RotateKeeps | packages/f8assetcloud_worker/src/app.js:2343-2367 | the conditional rotating UPDATE keeps it |
| DesktopSessions.IssueKeeps | packages/f8assetcloud_worker/src/app.js:2259-2297 | inserting a session keeps it |
| DesktopSessions.DesktopSessionTable.constructor | packages/f8assetcloud_worker/migrations/0001_init.sql:178-189 | an empty table with the empty run |
| DesktopSessions.DesktopSessionTable.AddUser | packages/f8assetcloud_worker/migrations/0001_init.sql:3-15 | adding a user is one step of the run |
| DesktopSessions.DesktopSessionTable.RemoveUser | packages/f8assetcloud_worker/migrations/0001_init.sql:178-189 | removing a user deletes the sessions that refer to it, as one step of the run |
| DesktopSessions.DesktopSessionTable.IssueDesktopTokenPair | packages/f8assetcloud_worker/src/app.js:2259-2297 | the INSERT is one step of the run; it succeeds exactly when the user exists, and then the new pair passes both checks |
| DesktopSessions.DesktopSessionTable.SelectForRefresh | packages/f8assetcloud_worker/src/app.js:2309-2334 | the SELECT is one step of the run and finds a row exactly when some session may be refreshed with the token |
| DesktopSessions.DesktopSessionTable.UpdateForRefresh | packages/f8assetcloud_worker/src/app.js:2343-2370 | the UPDATE is one step of the run; it changes a row exactly when the selected row still holds the token unrevoked, and after that the token is refused |
| DesktopSessions.DesktopSessionTable.RevokeDesktopRefreshToken | packages/f8assetcloud_worker/src/app.js:2378-2387 | revoking is one step of the run |
| DesktopSessions.DesktopSessionTable.PurgeExpiredDesktopSessions | packages/f8assetcloud_worker/src/index.js:138-144 | the purge, by request or by cron, is one step of the run |
| DesktopSessions.DesktopSessionTable.ClearAppUserSessions | packages/f8assetcloud_worker/src/app.js:2471-2478 | clearing a user is one step of the run |
| DesktopSessions.DesktopSessionTable.ReadDesktopAccessTokenUser | packages/f8assetcloud_worker/src/app.js:2226-2245 | the access check finds a user exactly when some session passes, and then that session's owner |
| DesktopCodes.OnePairPerCode | packages/f8assetcloud_worker/src/app.js:1267-1279 | in every interleaving of exchanges, purges, cron cleanups and account removals, at most one pair is issued per code (RFC 6749 section 4.1.2) |
| DesktopCodes.PairsMatchTheirRequest | packages/f8assetcloud_worker/src/app.js:1241-1279 | every issued pair went to an exchange whose client, redirect and S256 verifier match the inserted code, to the user who made it, and which looked less than 300 s after the insertion (RFC 7636 section 4.6) |
| DesktopCodes.GrantsWereInserted | packages/f8assetcloud_worker/src/app.js:1947-1971 | what is remembered of a code is exactly one of the INSERTs of the run |
| DesktopCodes.RefusedUnlessEntitled | packages/f8assetcloud_worker/src/app.js:1241-1266 | the checks let through exactly the exchanges entitled to a code that is still unused |
| DesktopCodes.AloneIsIssuedIffEntitled | packages/f8assetcloud_worker/src/app.js:1241-1279 | with nothing between its statements, an exchange gets its pair exactly when the code is unused and it is entitled to it |
| DesktopCodes.SpentForGood | packages/f8assetcloud_worker/src/app.js:1267-1275 | once claimed, a code can be claimed in no continuation of the run |
| DesktopCodes.UsableUnlessEnded | packages/f8assetcloud_worker/src/app.js:1267-1275 | an unused code stays usable under every statement but a claim of it, a purge more than 300 s after it was made, and the removal of its user |
| DesktopCodes.ClaimedInTimeIff | packages/f8assetcloud_worker/src/app.js:1267-1275 | an exchange that claims its code looked in time; it claims in time exactly when less than 300 s lie between the making of the code and the UPDATE, which is when the row it marks has not expired |
| DesktopCodes.AllInTimeIff | packages/f8assetcloud_worker/src/app.js:1267-1275 | in a run every code is claimed in time exactly when every claiming UPDATE met a row that had not expired |
| DesktopCodes.ClaimedAfterExpiry | packages/f8assetcloud_worker/src/app.js:1267-1275 | late claims do occur: a legal run with one |
| DesktopCodes.RunKeeps | packages/f8assetcloud_worker/src/app.js:1241-1279 | every interleaving keeps the invariant: rows agree with their INSERT, exchanges in flight are entitled, a claimed code belongs to one exchange |
| DesktopCodes.StepKeepsClaims | packages/f8assetcloud_worker/src/app.js:1267-1279 | every statement keeps a claimed code with one exchange |
| DesktopCodes.StepKeepsFlights | packages/f8assetcloud_worker/src/app.js:1241-1266 | every statement keeps each exchange in flight entitled to what it was let through for |
| DesktopCodes.GrantsStay | packages/f8assetcloud_worker/src/app.js:2015-2019 | no statement changes a remembered code or takes back a claim |
| DesktopCodes.DesktopCodeTable.constructor | packages/f8assetcloud_worker/migrations/0001_init.sql:160-171 | an empty table with the empty run |
| DesktopCodes.DesktopCodeTable.AddUser | packages/f8assetcloud_worker/migrations/0001_init.sql:3-15 | adding a user is one step of the run |
| DesktopCodes.DesktopCodeTable.RemoveUser | packages/f8assetcloud_worker/migrations/0001_init.sql:160-171 | removing a user deletes its codes, as one step of the run |
| DesktopCodes.DesktopCodeTable.InsertCode | packages/f8assetcloud_worker/src/app.js:1947-1971 | the INSERT is one step of the run and succeeds exactly when the user exists |
| DesktopCodes.DesktopCodeTable.PurgeExpired | packages/f8assetcloud_worker/src/index.js:135-137 | the purge, by request or by cron, is one step of the run |
| DesktopCodes.DesktopCodeTable.LoadRecord | packages/f8assetcloud_worker/src/app.js:1974-2013 | the SELECT with its join is one step of the run |
| DesktopCodes.DesktopCodeTable.CheckRecord | packages/f8assetcloud_worker/src/app.js:1241-1266 | the checks are one step of the run, refuse with the first failing check, and let only entitled exchanges on |
| DesktopCodes.DesktopCodeTable.ClaimCode | packages/f8assetcloud_worker/src/app.js:1267-1275 | the conditional UPDATE is one step of the run; it is refused exactly when the code is gone or used, and leaves the code unclaimable |
| DesktopCodes.DesktopCodeTable.IssueDesktopTokenPair | packages/f8assetcloud_worker/src/app.js:1276-1279 | issuing is one step of the run and adds one pair exactly when the user still exists |
| DesktopCodes.DesktopCodeTable.Crash | packages/f8assetcloud_worker/src/app.js:1227-1281 | a request may stop between any two statements |
| WorkerRateLimit.DecisionsFollowHistory | packages/f8assetcloud_worker/src/app.js:2058-2093 | the stored count and time decide every call of a serial run as the full history of accepted calls would: refused exactly when the last accepted call is within the window and its burst has reached the maximum |
| WorkerRateLimit.RefusedIff | packages/f8assetcloud_worker/src/app.js:2058-2084 | in terms of the accepted times alone: a call is refused exactly when it comes within the window after the last of them and as many as the maximum came with no longer gap between them |
| WorkerRateLimit.AcceptedGrow | packages/f8assetcloud_worker/src/app.js:2058-2093 | the accepted times are exactly those of the calls the stored rows let through |
| WorkerRateLimit.RowsTrackBursts | packages/f8assetcloud_worker/src/app.js:2062-2092 | a stored row holds the length of the last burst and the time of the last accepted call; without a row the last accepted call is older than the window |
| WorkerRateLimit.SlidingWindow | packages/f8assetcloud_worker/src/app.js:2058-2093 | in every serial run every closed interval of the window's length holds at most the maximum (but at least one) of a key's accepted calls |
| WorkerRateLimit.MaximumKeptIffPositive | packages/f8assetcloud_worker/src/app.js:2068-2084 | for every window that is not negative the maximum itself is kept in every serial run exactly when it is positive; otherwise a first call is accepted all the same |
| WorkerRateLimit.CleanupsChangeNoDecision | packages/f8assetcloud_worker/src/index.js:145-147 | with a window of at most 24 hours, cleanups change no decision |
| WorkerRateLimit.CleanupsMatterBeyondRetention | packages/f8assetcloud_worker/src/index.js:145-147 | with any longer window there is a run in which a cleanup lets a call through that would be refused |
| WorkerRateLimit.TimesIgnoreCleanups | packages/f8assetcloud_worker/src/index.js:145-147 | the history of accepted calls is the same with and without the cleanups |
| WorkerRateLimit.BurstCovers | packages/f8assetcloud_worker/src/app.js:2062-2084 | an interval reaching back no further than the window sees only calls of the last burst |
| WorkerRateLimit.WorkerRateLimiter.constructor | packages/f8assetcloud_worker/migrations/0001_init.sql:67-72 | an empty table with the empty run |
| WorkerRateLimit.WorkerRateLimiter.Enforce | packages/f8assetcloud_worker/src/app.js:2058-2093 | a call decides as the history does, a refused call changes nothing, and no other key is touched |
| WorkerRateLimit.WorkerRateLimiter.CleanupExpired | packages/f8assetcloud_worker/src/index.js:145-147 | the cleanup keeps exactly the rows used in the last 24 hours |
| WorkerRateFlights.AlwaysKeptIffSafe | packages/f8assetcloud_worker/src/app.js:2058-2093 | with at most n calls of a key between SELECT and write, and cleanups at any moment, every run keeps a positive maximum exactly when n is zero, or n is one, the window at most 24 hours and, unless the maximum is one, at most 12 |
| WorkerRateFlights.RunKeeps | packages/f8assetcloud_worker/src/app.js:2063-2092 | when calls of a key do not overlap and the window is that short, row, burst and every interval of the window's length stay as in serial runs, wherever cleanups come |
| WorkerRateFlights.WriteTracks | packages/f8assetcloud_worker/src/app.js:2071-2092 | a write records the call, or comes so long after a cleanup has deleted the row that the call no longer counts |
| WorkerRateFlights.TwoLookFirst | packages/f8assetcloud_worker/src/app.js:2063-2092 | for every positive maximum there is a run in which two overlapping calls are both accepted for one place |
| WorkerRateFlights.ForgottenWithin | packages/f8assetcloud_worker/src/index.js:145-147 | for every window beyond 24 hours a cleanup makes room for a call too many |
| WorkerRateFlights.UncountedWithin | packages/f8assetcloud_worker/src/app.js:2085-2092 | for windows beyond 12 hours and maximum two or more, a cleanup between SELECT and UPDATE leaves a call uncounted, and as many as the maximum follow within the window |
| WorkerRateFlights.UninterruptedIsSerial | packages/f8assetcloud_worker/src/app.js:2058-2093 | with no step between them the two steps are the call of the serial limiter |
| AssetStore.RunKeeps | packages/f8assetcloud_worker/src/repository.js:199-1028 | in every run of users' and administrators' calls the stored versions of each asset are exactly 1 to its current one, heads and contents are acceptable, and every subscriber has seen one of those versions |
| AssetStore.StepKeeps | packages/f8assetcloud_worker/src/repository.js:199-1028 | every one of the twelve calls keeps that |
| AssetStore.FoundIffVisible | packages/f8assetcloud_worker/src/repository.js:704-722 | a version is found exactly when the asset is public or the viewer's own and the number is one of 1 to current; what is found is that version with the viewer's own subscription; otherwise the answer is that there is none or that it is forbidden |
| AssetStore.SecondTestIsIdle | packages/f8assetcloud_worker/src/repository.js:709-713 | whatever the store holds, the read gives what it would give without its second permission test |
| AssetStore.ContentReadIff | packages/f8assetcloud_worker/src/repository.js:2046-2054 | reading content needs besides that the stored payload is not shaped like a stored record, which a recipe's never is |
| AssetStore.WriteDoes | packages/f8assetcloud_worker/src/repository.js:599-1028 | each of the nine users' calls passes exactly when it is allowed, then makes just its own change and reports it, and when it fails changes nothing and gives exactly the reason; no write fails in the read that follows it; a conflict names the version that is current |
| AssetStore.CallDoes | packages/f8assetcloud_worker/src/repository.js:199-361 | so for users; an administrator's call needs only that the asset is there, of the type hinted at, and then changes just visibility and date, or removes just that asset, or empties the store |
| AssetStore.ManagedShownIff | packages/f8assetcloud_worker/src/repository.js:342-361 | the answer to an administrator's change of visibility: an error exactly for an asset whose payload is shaped like a stored record, although the change has been written |
| AssetStore.CreateDoes | packages/f8assetcloud_worker/src/repository.js:599-639 | a create passes exactly when the payload is acceptable and the id free; it makes version 1 and nothing else |
| AssetStore.UpdateDoes | packages/f8assetcloud_worker/src/repository.js:641-695 | an update passes exactly for the owner with an acceptable payload whose expected version, if given, is the current one; it adds one version, keeps all others and changes no subscription |
| AssetStore.ForkDoes | packages/f8assetcloud_worker/src/repository.js:922-970 | a fork passes exactly when the forker may read the content and the new record is acceptable; it makes version 1 of a new asset, private unless asked otherwise, with the source's current content, and leaves everything else alone |
| AssetStore.CreatedReadableIffProper | packages/f8assetcloud_worker/src/repository.js:1812-1813 | what was just created can be read back by its owner exactly when it is not shaped like a stored record |
| AssetStore.LimitsAre | packages/f8assetcloud_worker/src/repository.js:2289-2347 | what is accepted of ids, names, descriptions, tags, variant details, notes and payloads, in plain numbers and characters |
| AssetStore.VersionsNeverChange | packages/f8assetcloud_worker/src/repository.js:894-920 | while its asset stays, a version keeps content, author and date in every continuation of the run; only its note may change |
| AssetStore.OthersChangeOnlyVisibility | packages/f8assetcloud_worker/src/repository.js:327-361 | over a continuation without a call of its owner an asset stays exactly when no administrator removes it; its versions are then as they were, and its head is what the administrators' visibility calls alone make of it |
| AssetStore.OnlyAdministratorsAlter | packages/f8assetcloud_worker/src/repository.js:199-361 | over such a continuation an asset is the same at every moment exactly when no administrator's call in it removes it or gives it another visibility or date |
| AssetStore.SubscriptionsAreOnesOwn | packages/f8assetcloud_worker/src/repository.js:858-892 | while the asset stays, nobody but the subscriber changes a subscription in any continuation of the run |
| AssetStore.NoLostUpdate | packages/f8assetcloud_worker/src/repository.js:641-648 | of all updates of a serial run that expect the same version of an asset, at most one succeeds while the asset stays |
| AssetStore.AssetRepository.constructor | packages/f8assetcloud_worker/migrations/0001_init.sql:74-136 | an empty store |
| AssetStore.AssetRepository.CreateAsset | packages/f8assetcloud_worker/src/repository.js:599-639 | keeps the store consistent; passes exactly when the payload is acceptable and the id free, then adds the head and its version 1; else nothing changes |
| AssetStore.AssetRepository.UpdateAsset | packages/f8assetcloud_worker/src/repository.js:641-695 | keeps the store consistent; passes exactly for the owner with an acceptable payload and the expected version, then adds one version; else nothing changes |
| AssetStore.AssetRepository.DeleteOwnedAsset | packages/f8assetcloud_worker/src/repository.js:697-702 | keeps the store consistent; passes exactly for the owner, then removes the asset with exactly its versions and subscriptions, and reports what was there |
| AssetStore.AssetRepository.SubscribeAsset | packages/f8assetcloud_worker/src/repository.js:858-876 | keeps the store consistent; passes exactly for a visible asset, then the subscription has seen the current version |
| AssetStore.AssetRepository.UnsubscribeAsset | packages/f8assetcloud_worker/src/repository.js:878-892 | keeps the store consistent; passes exactly for a visible asset, then the subscription is gone |
| AssetStore.AssetRepository.UpdateVersionNote | packages/f8assetcloud_worker/src/repository.js:894-920 | keeps the store consistent; passes exactly for the owner and one of the versions 1 to current, then only that note is changed |
| AssetStore.AssetRepository.ForkAsset | packages/f8assetcloud_worker/src/repository.js:922-970 | keeps the store consistent; passes exactly for a readable source and an acceptable new record, then adds the copy as version 1 of a new asset |
| AssetStore.AssetRepository.UpdateVisibility | packages/f8assetcloud_worker/src/repository.js:972-991 | keeps the store consistent; passes exactly for the owner and the expected version, then only visibility and date are changed |
| AssetStore.AssetRepository.UpdateMeta | packages/f8assetcloud_worker/src/repository.js:1001-1018 | keeps the store consistent; passes exactly for the owner and acceptable name, description and tags, then only those and the date are changed, with no new version |
| AssetStore.AssetRepository.StoreUpdate | packages/f8assetcloud_worker/src/repository.js:641-695 | the part of an update behind ownership and payload checks |
| AssetStore.AssetRepository.AdminUpdateAssetVisibility | packages/f8assetcloud_worker/src/repository.js:342-361 | keeps the store consistent; changes just visibility and date of an asset that is there, whoever owns it, and answers with what can be shown of it |
| AssetStore.AssetRepository.AdminDeleteAsset | packages/f8assetcloud_worker/src/repository.js:327-340 | keeps the store consistent; removes just the asset with its versions and subscriptions, whoever owns it, and says whether it was there |
| AssetStore.AssetRepository.AdminPurgeAllAssets | packages/f8assetcloud_worker/src/repository.js:199-224 | empties the store and counts the rows of each table |
| AssetRaces.NumbersStoredOnce | packages/f8assetcloud_worker/src/repository.js:641-694 | however statements of calls interleave, each version number of an asset is inserted once until the versions are deleted; so of the updates that saw one version at most one is stored |
| AssetRaces.ContentsStay | packages/f8assetcloud_worker/src/repository.js:1031-1046 | in every interleaving a stored version keeps its content until the versions are deleted |
| AssetRaces.RunKeeps | packages/f8assetcloud_worker/src/repository.js:199-702 | every interleaving keeps the invariant behind both |
| AssetRaces.AlwaysWholeIff | packages/f8assetcloud_worker/src/repository.js:199-702 | with at most n calls in flight, the versions are 1 to the current one whenever nothing is in flight exactly when n is zero, or n is one and no call stops half-way |
| AssetRaces.OrderlyStep | packages/f8assetcloud_worker/src/repository.js:199-702 | what a single call in flight has left half done, statement by statement |
| AssetRaces.OverlapBreaks | packages/f8assetcloud_worker/src/repository.js:651-686 | three updates of which two have seen one version: the late one takes the head back behind a version that was stored |
| AssetRaces.StrandedStays | packages/f8assetcloud_worker/src/repository.js:1077-1110 | an asset whose head names a missing version can be neither read, updated, deleted nor created anew in any continuation until everything is purged |
| AssetRaces.OneCrashStrands | packages/f8assetcloud_worker/src/repository.js:599-637 | one create that stops between its INSERTs leaves such an asset |
| AssetRaces.StartsIff | packages/f8assetcloud_worker/src/repository.js:1077-1110 | a call gets past its SELECT exactly when the head and its current version are there, of the expected number, or for a create when they are not |
| AssetRaces.HeadAfter | packages/f8assetcloud_worker/src/repository.js:199-702 | what each statement makes of the head and when versions go with it |
| AssetRaces.AloneAddsTheNext | packages/f8assetcloud_worker/src/repository.js:641-695 | with nothing between them the statements of an update add the next version and make it the current one |
| LikeEscape.PassesAreSimultaneous | packages/f8assetcloud_worker/src/utils.js:58-63 | the three chained replacements are one simultaneous escape of each special character |
| LikeEscape.BackslashLastIffNoWildcard | packages/f8assetcloud_worker/src/utils.js:60-62 | with the backslash escaped last the result would be the same exactly for texts without a wildcard |
| LikeEscape.EscapedMatchesLiterally | packages/f8assetcloud_worker/src/utils.js:58-63 | an escaped text at the front of a pattern matches exactly that text, up to folding, whatever pattern follows |
| LikeEscape.PercentSkips | packages/f8assetcloud_worker/src/repository.js:1791 | a percent sign matches exactly by skipping some prefix |
| LikeEscape.ContainsPatternIsSubstring | packages/f8assetcloud_worker/src/repository.js:1791-1798 | a text matches the search pattern exactly when the query occurs in it, for every way of folding characters |
| LikeEscape.ContainsIsSubstring | packages/f8assetcloud_worker/src/repository.js:1791-1798 | without folding this is plain substring search |
| LikeEscape.UnescapedIffPlain | packages/f8assetcloud_worker/src/utils.js:54-57 | left unescaped, a query would find exactly the texts it occurs in only when it has no special character |
| LikeEscape.ApplyAssetQueryFilters | packages/f8assetcloud_worker/src/repository.js:1789-1810 | the clauses and bindings pushed hold of a row exactly when the row is wanted: every question mark meets the binding meant for it |
| LikeEscape.SearchClause | packages/f8assetcloud_worker/src/repository.js:1790-1798 | a search clause asks that the query occurs in one of the searched columns |
| LuaBridge.JsonToLua | packages/f8cppengine/src/script_operators.cpp:205-228 | what is sent: nulls become nil, arrays and objects become tables without the slots that are nil |
| LuaBridge.SendArray | packages/f8cppengine/src/script_operators.cpp:212-219 | filling a table item by item, where nil erases a slot, gives the table with exactly the other items |
| LuaBridge.SendObject | packages/f8cppengine/src/script_operators.cpp:220-226 | the same for members, in whatever order they come |
| LuaBridge.LooksLikeArray | packages/f8cppengine/src/script_operators.cpp:243-260 | the scan over entries in any order says array exactly when the keys are 1 to n, and then finds n |
| LuaBridge.FullRange | packages/f8cppengine/src/script_operators.cpp:246-260 | n different positive indexes none above n are all of 1 to n |
| LuaBridge.LuaToJson | packages/f8cppengine/src/script_operators.cpp:230-285 | reading succeeds exactly on values without functions and without odd keys, and gives a value the table can be read as |
| LuaBridge.ReadArray | packages/f8cppengine/src/script_operators.cpp:260-266 | the same for tables read as arrays |
| LuaBridge.ReadObject | packages/f8cppengine/src/script_operators.cpp:267-280 | the same for tables read as objects, in whatever order the entries come |
| LuaBridge.RoundTrip | packages/f8cppengine/src/script_operators.cpp:205-285 | whatever the entry order, a sent value reads back as one normal form: null members vanish, trailing nulls are cut, arrays with holes become keyed by index, an empty object becomes an empty array |
| LuaBridge.SendAndReadBack | packages/f8cppengine/src/script_operators.cpp:205-285 | sending and reading back always succeeds and gives that normal form |
| LuaBridge.SurvivesNormal | packages/f8cppengine/src/script_operators.cpp:205-285 | the result has no nulls inside and no empty objects |
| LuaBridge.SurvivesFixpoints | packages/f8cppengine/src/script_operators.cpp:205-285 | the trip leaves exactly the normal values unchanged, and a second trip changes nothing more |
| LuaBridge.SentArrayKeys | packages/f8cppengine/src/script_operators.cpp:212-219 | a sent array has the keys 1 to n exactly when its nulls are all at the end |
| LuaBridge.SentReadable | packages/f8cppengine/src/script_operators.cpp:230-285 | whatever is sent can be read back |
| LuaBridge.TableReadsBack | packages/f8cppengine/src/script_operators.cpp:267-280 | a table read as an object whose key texts differ has one reading, every value under the text of its key, whatever the order of the entries |
| LuaBridge.TextsDifferIff | packages/f8cppengine/src/script_operators.cpp:268-279 | the key texts differ exactly when no number key is also there as a string key of the same digits |
| LuaBridge.MembersKeptIff | packages/f8cppengine/src/script_operators.cpp:267-280 | an object read has as many members as the table has entries exactly when the key texts differ |
| LuaBridge.NothingLostIff | packages/f8cppengine/src/script_operators.cpp:230-285 | a readable table loses no entry exactly when no number key is also there as a string key of the same digits |
| LuaBridge.OrderMattersIff | packages/f8cppengine/src/script_operators.cpp:230-285 | every readable value has one reading whatever the order of entries, in it and in the tables inside it, exactly when it is settled: everywhere entries under the same text are read alike |
| LuaBridge.SettledReadsOnce | packages/f8cppengine/src/script_operators.cpp:260-280 | a settled value has one reading |
| LuaBridge.ReadOnceSettled | packages/f8cppengine/src/script_operators.cpp:260-280 | a value with one reading is settled, because exchanging the reading of an entry gives a reading again |
| LuaBridge.KeysMayCollide | packages/f8cppengine/src/script_operators.cpp:268-279 | a table with the keys 1 and "1" has both readings, whatever the two values |
| DataPickPath.TrimString | packages/f8cppengine/src/data_pick_operator.cpp:35-45 | the trimmed text: whitespace at both ends removed and no more |
| DataPickPath.ParseUnsignedIndex | packages/f8cppengine/src/data_pick_operator.cpp:51-64 | the digits' value modulo 2 to the 64, or the first error; wrapping at every digit is wrapping once |
| DataPickPath.ParseQuotedKey | packages/f8cppengine/src/data_pick_operator.cpp:66-100 | the key up to the closing quote with its escapes undone and the position behind the quote, or the first error |
| DataPickPath.ParseDataPickPath | packages/f8cppengine/src/data_pick_operator.cpp:102-166 | the parser computes what a path means: its segments or the first error |
| DataPickPath.ParseSegment | packages/f8cppengine/src/data_pick_operator.cpp:126-162 | one segment of a path and the position behind it |
| DataPickPath.ParseQuotedSegment | packages/f8cppengine/src/data_pick_operator.cpp:131-139 | a quoted key must be closed by a bracket |
| DataPickPath.ParseIndexSegment | packages/f8cppengine/src/data_pick_operator.cpp:141-151 | an index reaches to the next bracket |
| DataPickPath.ParseBareSegment | packages/f8cppengine/src/data_pick_operator.cpp:154-162 | a bare key reaches to the next dot or bracket and is trimmed |
| DataPickPath.WrapStep | packages/f8cppengine/src/data_pick_operator.cpp:61 | wrapping the intermediate value does not change the wrapped result |
| DataPickPath.QuotedKeyOfEscaped | packages/f8cppengine/src/data_pick_operator.cpp:66-100 | every key, escaped and quoted, is read back |
| DataPickPath.PrintParses | packages/f8cppengine/src/data_pick_operator.cpp:102-166 | printed with bare keys where that is legal and quoted ones elsewhere, a segment list parses back |
| DataPickPath.PrintParsesIff | packages/f8cppengine/src/data_pick_operator.cpp:102-166 | a segment list survives printing and parsing exactly when its indexes fit into 64 bits |
| DataPickPath.RootedParses | packages/f8cppengine/src/data_pick_operator.cpp:110-115 | behind the root mark, with or without its dot, a printed segment list means the same |
| DataPickPath.PlainKeyParses | packages/f8cppengine/src/data_pick_operator.cpp:35-49 | a key of any characters but dots and brackets, between any whitespace, is that key |
| DataPickPath.OtherEscapesFail | packages/f8cppengine/src/data_pick_operator.cpp:66-100 | only the backslash, the two quotes, n and t can be escaped |
| DataPickPath.ErrorBehind | packages/f8cppengine/src/data_pick_operator.cpp:102-166 | behind any printed segment list a broken continuation gives its own error |
| DataPickPath.BrokenTails | packages/f8cppengine/src/data_pick_operator.cpp:51-166 | a trailing dot, a lone bracket opened or closed, and the error each gives |
| DataPickPath.BrokenIndexes | packages/f8cppengine/src/data_pick_operator.cpp:51-166 | the three broken indexes, and the error each gives |
| DataPickPath.BrokenQuotes | packages/f8cppengine/src/data_pick_operator.cpp:51-166 | the four broken quoted keys, and the error each gives |
| DataPickPath.PrintNormalizes | packages/f8cppengine/src/data_pick_operator.cpp:102-166 | every accepted path means the same as the printed form of its meaning |
| DataPickPath.HugeIndexWraps | packages/f8cppengine/src/data_pick_operator.cpp:51-64 | an index too large for 64 bits is not rejected but selects the index modulo 2 to the 64 |
| DataPickPath.PickJsonPath | packages/f8cppengine/src/data_pick_operator.cpp:168-189 | picking walks the path from child to child and finds nothing as soon as one is missing |
| DataPickPath.PickedAppend | packages/f8cppengine/src/data_pick_operator.cpp:168-189 | picking along two paths in a row is picking along their concatenation |
| DataPickPath.PicksItem | packages/f8cppengine/src/data_pick_operator.cpp:183-186 | an index n leads to the item behind n others |
| DataPickPath.PicksMember | packages/f8cppengine/src/data_pick_operator.cpp:176-181 | a key leads to the member of that name |
| DataPickPath.NothingPickedIff | packages/f8cppengine/src/data_pick_operator.cpp:168-189 | nothing is found exactly when the path leads to a value of the wrong kind, without the key, or with too few items |
| DataPickNode.DataPick.constructor | packages/f8cppengine/src/data_pick_operator.cpp:255-262 | a node that remembers nothing |
| DataPickNode.DataPick.OnState | packages/f8cppengine/src/data_pick_operator.cpp:274-292 | a setting is changed and what is remembered is no longer used |
| DataPickNode.DataPick.ComputeOutput | packages/f8cppengine/src/data_pick_operator.cpp:316-339 | an answer, remembered or not, is what an evaluator without memory gives for the settings as they are and the input the context was first asked with; the error is reported exactly when the path does not parse |
| DataPickNode.DataPick.Refresh | packages/f8cppengine/src/data_pick_operator.cpp:324-338 | a fresh answer and what is remembered of it |
| DataPickNode.DataPick.OnExec | packages/f8cppengine/src/data_pick_operator.cpp:294-302 | an execution is answered in the context of its id and a non-null answer emitted on the output port |
| DataPickNode.DataPick.OnData | packages/f8cppengine/src/data_pick_operator.cpp:304-314 | new data on the input port is answered in the context of its time and a non-null answer emitted on the output port; data on another port does nothing |
| DataPickNode.DataPick.Compute | packages/f8cppengine/src/data_pick_operator.cpp:325-334 | the picked value, or the fallback when the path does not parse |
| DataPickNode.DataPick.CompilePathIfNeeded | packages/f8cppengine/src/data_pick_operator.cpp:362-367 | a path marked ready is the parse of the current path |
| DataPickNode.DataPick.PickOrFallback | packages/f8cppengine/src/data_pick_operator.cpp:369-375 | the picked value coerced, or the fallback when nothing is found |
| DataPickNode.Drive | packages/f8cppengine/src/data_pick_operator.cpp:264-384 | over every run of settings, questions, executions and data the node replies as one that repeats itself within a context, and as one without memory if inputs do not change within a context |
| DataPickNode.MemoryNeverShows | packages/f8cppengine/src/data_pick_operator.cpp:316-339 | repeating within a context is the same as having no memory when inputs do not change within a context |
| DataPickNode.ExecutionAndTimeCollide | packages/f8cppengine/src/data_pick_operator.cpp:294-314 | an execution id and a timestamp of the same number are one context: new data is answered with the input of the execution |
| DataPickNode.TypeNames | packages/f8cppengine/src/data_pick_operator.cpp:191-200 | which names stand for which value type, in any mixture of cases, and that everything else stands for any type |
| SkeletonPacket.BuiltDecodes | scripts/udp_skeleton_stub.py:63-93 | a built packet decodes to exactly its model name, timestamp, schema and bones, with no trailer |
| SkeletonPacket.DecodedRebuilds | scripts/udp_skeleton_dump.py:12-93 | whatever bytes decode hold at least 20 + 32 bytes for each bone, and encoding the result again gives no more bytes, which decode to the same packet without its trailer |
| SkeletonPacket.SurvivesIffSendable | scripts/udp_skeleton_stub.py:63-93 | a packet survives the trip exactly when its strings hold no NUL and are valid, its bones are at most 100000, and it has no trailer |
| SkeletonPacket.ReadsPacked | scripts/udp_skeleton_stub.py:27-30 | at an offset that is a multiple of four the relatively padded string is read back by the absolutely padding reader |
| SkeletonPacket.PaddingAligned | scripts/udp_skeleton_dump.py:12-19 | at such offsets relative and absolute padding agree |
| SkeletonPacket.StringRead | scripts/udp_skeleton_dump.py:12-19 | what is read from such an offset is NUL-free, valid, and as long as its encoding |
| SkeletonPacket.BoneReads | scripts/udp_skeleton_stub.py:85-91 | a packed bone is read back |
| SkeletonPacket.BonesRead | scripts/udp_skeleton_stub.py:85-91 | packed bones are read back, in order |
| SkeletonPacket.BonesAreRead | scripts/udp_skeleton_dump.py:39-52 | read bones take up as many bytes as their encoding, at least 32 each, all of them in range |
| SkeletonPacket.HeaderReads | scripts/udp_skeleton_stub.py:72-78 | the packed header is read back |
| SkeletonPacket.UnsignedOfLittleEndian | scripts/udp_skeleton_stub.py:74-78 | little-endian numbers that fit their width are read back |
| SkeletonPacket.ByteOfNumber | scripts/udp_skeleton_stub.py:74-78 | the byte at position i of a packed number is the i-th digit to the base 256, the least significant first |
| SkeletonPacket.PackedString | scripts/udp_skeleton_stub.py:27-30 | a packed string is its bytes and one to four zeros up to a multiple of four |
| SkeletonPacket.PackedPose | scripts/udp_skeleton_stub.py:85-91 | the seven fields of a pose in their order, byte by byte |
| SkeletonPacket.PackedHeader | scripts/udp_skeleton_stub.py:72-78 | where model name, timestamp, schema, bone count and bones stand in a packet |
| SkeletonPacket.PackedBones | scripts/udp_skeleton_stub.py:85-91 | packed bones stand one behind the other, each name in front of its pose |
| SkeletonPacket.TrailerReads | scripts/udp_skeleton_dump.py:55-69 | a trailer of a tag, a 16 bit, a 64 bit and four signed 32 bit numbers is read field by field |
| SkeletonPacket.AnimReads | scripts/udp_skeleton_dump.py:70-81 | so is an animation block, with its strings padded by absolute offset |
| SkeletonPacket.NoAnimIff | scripts/udp_skeleton_dump.py:71 | there is no such block exactly with fewer than twelve bytes left or without its tag |
| SkeletonPacket.FindNul | scripts/udp_skeleton_dump.py:13-15 | the first NUL at or behind an offset, if there is one |
| SkeletonPacket.BuildSkeletonPacket | scripts/udp_skeleton_stub.py:63-93 | the builder appends exactly the encoding of the packet, or fails on a timestamp or bone count that does not fit |
| SkeletonPacket.DecodeSkeletonPacket | scripts/udp_skeleton_dump.py:22-93 | the decoder gives exactly the packet the format describes, or nothing: on a short field, a bad string, a bad bone count, or an unreadable animation block |
| RateLimiter.RunKeeps | packages/f8cppengine/src/rate_limiter_operator.cpp:97-132 | with fixed parameters the output stays in its bounds and the velocity in its rates, over every run of inputs, clock readings and lifecycle changes |
| RateLimiter.EveryStepKeepsLimits | packages/f8cppengine/src/rate_limiter_operator.cpp:97-132 | in every run a reading moves the output no faster than the rates allow, changes the velocity by no more than the acceleration allows unless it ends at rest on the target, and never crosses the target |
| RateLimiter.MoveKeepsLimits | packages/f8cppengine/src/rate_limiter_operator.cpp:113-131 | the same for one move from any state in bounds |
| RateLimiter.MoveWithoutAccel | packages/f8cppengine/src/rate_limiter_operator.cpp:113-131 | with no acceleration limit a move covers the error or as much as the rates allow |
| RateLimiter.StaysOnTargetIff | packages/f8cppengine/src/rate_limiter_operator.cpp:119-131 | on the target the output stays exactly when there is no acceleration limit, the remaining velocity can be braked in one step, or a bound pins it |
| RateLimiter.StaysIffRests | packages/f8cppengine/src/rate_limiter_operator.cpp:119-131 | a step from the target stays there exactly when no velocity is left after it or a bound pins the output, and from such a rest every step stays |
| RateLimiter.KeptIffKeptOnce | packages/f8cppengine/src/rate_limiter_operator.cpp:113-131 | a target that has been met is kept through all further readings exactly when the first of them keeps it: no acceleration limit, a velocity braked in one step, or a bound |
| RateLimiter.SnapKept | packages/f8cppengine/src/rate_limiter_operator.cpp:126-129 | after a snap a constant target is kept for good |
| RateLimiter.ReachedAndLeft | packages/f8cppengine/src/rate_limiter_operator.cpp:113-131 | a run that reaches its target and leaves it with the input unchanged |
| RateLimiter.FirstReading | packages/f8cppengine/src/rate_limiter_operator.cpp:103-108 | the first reading of all, whatever lifecycle changes come before it, is given as it is between the bounds, in either order, and as the nearer bound elsewhere, at rest |
| RateLimiter.ReadingAfterLifecycle | packages/f8cppengine/src/rate_limiter_operator.cpp:109-112 | the reading after a lifecycle change moves nothing and sets the clock |
| RateLimiter.UnlimitedReading | packages/f8cppengine/src/rate_limiter_operator.cpp:113-131 | in every run without acceleration limit any other reading moves the output towards the clamped input by what the rates allow in the time since the last one, a microsecond at least |
| RateLimiter.ConstantFromStart | packages/f8cppengine/src/rate_limiter_operator.cpp:97-132 | a constant input is met by the first reading of all and kept from then on |
| RateLimiter.DesiredCovers | packages/f8cppengine/src/rate_limiter_operator.cpp:116-118 | the desired velocity covers exactly the error clamped to what the rates allow |
| RateLimiter.VelocityApproaches | packages/f8cppengine/src/rate_limiter_operator.cpp:119-124 | the velocity moves towards the desired one by at most the acceleration |
| RateLimiter.FollowCovers | packages/f8cppengine/src/rate_limiter_operator.cpp:113-131 | however the time is cut into steps, the output has covered the error or what the rates allow in all of it |
| RateLimiter.ReachedIffTimeEnough | packages/f8cppengine/src/rate_limiter_operator.cpp:113-131 | with no acceleration limit a constant target is reached exactly when the rates could have covered the distance in the time |
| RateLimiter.ReachedWithin | packages/f8cppengine/src/rate_limiter_operator.cpp:113-131 | so with gaps bounded below it is reached within a number of steps fixed beforehand |
| RateLimiter.MetWithin | packages/f8cppengine/src/rate_limiter_operator.cpp:113-131 | with an acceleration limit a constant target is met within a number of steps fixed beforehand: enough to reach full speed and to cross the range |
| RateLimiter.FlipFollow | packages/f8cppengine/src/rate_limiter_operator.cpp:113-131 | following a target upside down is following it with the rates exchanged |
| RateLimiter.RateLimiterNode.constructor | packages/f8cppengine/src/rate_limiter_operator.cpp:42-51 | negative rates and accelerations are taken as zero, and nothing has moved |
| RateLimiter.RateLimiterNode.OnLifecycle | packages/f8cppengine/src/rate_limiter_operator.cpp:53-57 | a lifecycle change forgets the time of the last move and nothing else |
| RateLimiter.RateLimiterNode.OnState | packages/f8cppengine/src/rate_limiter_operator.cpp:59-68 | a parameter is changed, clamped where it is a rate, and the cache is not used again |
| RateLimiter.RateLimiterNode.ComputeOutput | packages/f8cppengine/src/rate_limiter_operator.cpp:78-94 | asking again in a context with the same input moves nothing; otherwise one step is taken; without an input the last output is given |
| RateLimiter.RateLimiterNode.Step | packages/f8cppengine/src/rate_limiter_operator.cpp:97-132 | the in-place step computes the step of the model |
| RateSettling.SettlesIff | packages/f8cppengine/src/rate_limiter_operator.cpp:97-132 | every constant input is reached for good from any motion within a number of readings that depends on the parameters alone, at whatever times, exactly when both rates are positive or the range is a point |
| RateSettling.SettlesWithin | packages/f8cppengine/src/rate_limiter_operator.cpp:113-131 | with an acceleration limit, readings whose losses exceed the most energy there can be suffice, and the target is kept through all later readings |
| RateSettling.FollowSettles | packages/f8cppengine/src/rate_limiter_operator.cpp:113-131 | over any readings the output ends on the target for good, or every one of them has taken its loss off the energy |
| RateSettling.StepSettles | packages/f8cppengine/src/rate_limiter_operator.cpp:113-131 | each step ends calmly on the target or takes at least its loss off velocity and distance taken together |
| RateSettling.ApproachLoses | packages/f8cppengine/src/rate_limiter_operator.cpp:116-124 | the part of that which velocity contributes, for every way it can approach the desired one |
| RateSettling.KeptStep | packages/f8cppengine/src/rate_limiter_operator.cpp:119-131 | an output at rest on the target, or with no more velocity than one step brakes, stays so |
| RateSettling.RateNeeded | packages/f8cppengine/src/rate_limiter_operator.cpp:116-118 | with a rate of zero the output never moves that way |
| RangeMap.CurveRises | packages/f8cppengine/src/operator_common.cpp:195-205 | each of the six curves rises strictly on the unit interval |
| RangeMap.CurveInUnit | packages/f8cppengine/src/operator_common.cpp:195-205 | each fixes 0 and 1 and maps the unit interval into itself |
| RangeMap.SmootherstepRise | packages/f8cppengine/src/operator_common.cpp:197 | the rise of the smootherstep curve over m - h to m + h is 60 h times a sum of squares |
| RangeMap.SmootherstepRises | packages/f8cppengine/src/operator_common.cpp:197 | so it rises strictly |
| RangeMap.SmoothstepRises | packages/f8cppengine/src/operator_common.cpp:196 | the smoothstep curve rises strictly on the unit interval |
| RangeMap.EaseInOutRises | packages/f8cppengine/src/operator_common.cpp:200-203 | the two halves of the ease-in-out curve join and rise strictly |
| RangeMap.CurveOffLine | packages/f8cppengine/src/operator_common.cpp:195-205 | how far each of the six curves leaves the straight line, as a product |
| RangeMap.MappedInBounds | packages/f8cppengine/src/range_map_operator.cpp:93-104 | the output lies between the output bounds given either way round, reaches them at the input bounds, and is the lower one for an empty input range |
| RangeMap.MappedRises | packages/f8cppengine/src/range_map_operator.cpp:93-104 | the output never falls as the input grows, and rises strictly inside the input range unless the output range is a point |
| RangeMap.MappedAlong | packages/f8cppengine/src/range_map_operator.cpp:93-104 | an input that lies some part of the way through its range goes as far through the output range as the curve says, whichever way round the bounds are |
| RangeMap.ExchangedBoundsMapAlike | packages/f8cppengine/src/range_map_operator.cpp:97-98 | exchanging the bounds of a range changes nothing, so no setting reverses the map |
| RangeMap.RangeMapNode.constructor | packages/f8cppengine/src/range_map_operator.cpp:42-51 | a node with nothing cached |
| RangeMap.RangeMapNode.OnState | packages/f8cppengine/src/range_map_operator.cpp:53-62 | a parameter is changed and the cache is not used again |
| RangeMap.RangeMapNode.ComputeOutput | packages/f8cppengine/src/range_map_operator.cpp:83-110 | caching never shows: a number pulled is mapped with the parameters as they are; without one the last output is given |
| AudioChunker.BlocksAndRest | packages/f8audiocap/src/audiocap_service.cpp:353-378 | full blocks and rest, put together, are the stream: nothing lost, repeated or moved |
| AudioChunker.BlocksGrow | packages/f8audiocap/src/audiocap_service.cpp:362-377 | frames that fit either stay behind the blocks or complete the next one |
| AudioChunker.ChunkNumbers | packages/f8audiocap/src/audiocap_service.cpp:388-391 | the k-th chunk handed over is the block of the k-th time the publisher was valid, with number k and frame index k times the chunk size, modulo 2 to the 64, whatever was dropped in between |
| AudioChunker.NothingLostIff | packages/f8audiocap/src/audiocap_service.cpp:386-405 | as many chunks go out as there are blocks exactly when the publisher was valid for each of them: every drop is a loss |
| AudioChunker.AllPublishedIff | packages/f8audiocap/src/audiocap_service.cpp:386-405 | the payloads are all the blocks exactly when the publisher was valid for each of them |
| AudioChunker.AudioCapture.constructor | packages/f8audiocap/src/audiocap_service.cpp:118 | a chunk size of zero stands for 480; counters start at zero and the accumulator empty |
| AudioChunker.AudioCapture.SetActive | packages/f8audiocap/src/audiocap_service.cpp:410-423 | pausing and resuming keep what is in the accumulator |
| AudioChunker.AudioCapture.SetPublisher | packages/f8audiocap/src/audiocap_service.cpp:385-386 | the publisher may become valid or invalid between deliveries |
| AudioChunker.AudioCapture.WriteAudioChunk | packages/f8audiocap/src/audiocap_service.cpp:380-408 | with a valid publisher one chunk of the accumulator goes out with the next number; otherwise nothing changes |
| AudioChunker.AudioCapture.CopyFrames | packages/f8audiocap/src/audiocap_service.cpp:366-368 | frames are copied behind those already there |
| AudioChunker.AudioCapture.Absorb | packages/f8audiocap/src/audiocap_service.cpp:362-377 | one turn of the loop takes in frames and flushes the accumulator when it is full |
| AudioChunker.AudioCapture.HandleCaptured | packages/f8audiocap/src/audiocap_service.cpp:353-378 | after a delivery of any size the chunks handed over are the full blocks of all frames delivered while active, less those dropped, and the accumulator holds the rest |
| PasswordHash.BytesToBase64Url | packages/f8assetcloud_worker/src/password.js:91-100 | the text is the unpadded base64url text of the bytes (RFC 4648 section 5) |
| PasswordHash.Base64UrlToBytes | packages/f8assetcloud_worker/src/password.js:102-116 | the bytes a text stands for, or nothing for an empty text, a foreign character or an impossible length |
| PasswordHash.GroupIsOneNumber | packages/f8assetcloud_worker/src/password.js:91-100 | three bytes and the four sextets they are written as are one number of 24 bits |
| PasswordHash.AlphabetIsTable | packages/f8assetcloud_worker/src/password.js:91-100 | the sextets are spelt by the table of RFC 4648 section 5, in its order |
| PasswordHash.BytesComeBack | packages/f8assetcloud_worker/src/password.js:91-116 | bytes come back from their text exactly when there are any |
| PasswordHash.TextComesBackIff | packages/f8assetcloud_worker/src/password.js:102-116 | an accepted text comes back from its bytes exactly when its last character has no loose bits |
| PasswordHash.LooseBitsAreIgnored | packages/f8assetcloud_worker/src/password.js:102-116 | the text without the loose bits stands for the same bytes |
| PasswordHash.SomeTextsHaveLooseBits | packages/f8assetcloud_worker/src/password.js:102-116 | so the decoder is not injective: an accepted text that is not the text of its bytes |
| PasswordHash.SextetsOfBytes | packages/f8assetcloud_worker/src/password.js:102-116 | sextets come back from the bytes they spell exactly when they have no loose bits, in all residues of the length |
| PasswordHash.BytesOfSextets | packages/f8assetcloud_worker/src/password.js:91-116 | bytes come back from their sextets, in all residues of the length |
| PasswordHash.SplitJoined | packages/f8assetcloud_worker/src/password.js:14-19 | parts without the separator come back from their joined text |
| PasswordHash.JoinedSplit | packages/f8assetcloud_worker/src/password.js:31-36 | every text is its parts joined again, and no part has the separator |
| PasswordHash.ParsedIff | packages/f8assetcloud_worker/src/password.js:31-57 | a text is accepted exactly when it is the version, a number from 10000 to 1000000 and the texts of 16 and 32 bytes, with dollar signs between |
| PasswordHash.ParsePasswordHash | packages/f8assetcloud_worker/src/password.js:31-57 | the record is parsed as the format says: four parts, the version, iterations in range, salt and key of their lengths |
| PasswordHash.HashComesBackIff | packages/f8assetcloud_worker/src/password.js:31-57 | a rendered hash is parsed back exactly when iterations and lengths are the accepted ones |
| PasswordHash.TimingSafeEqual | packages/f8assetcloud_worker/src/password.js:80-89 | or-ing the differences of all bytes says equal exactly when the byte strings are equal |
| PasswordHash.XorZero | packages/f8assetcloud_worker/src/password.js:86 | the exclusive or of two numbers is zero exactly when they are equal |
| PasswordHash.HashAuthPassword | packages/f8assetcloud_worker/src/password.js:11-20 | the stored hash is the rendered record of 50000 iterations, the salt and the key derived with them |
| PasswordHash.VerifyAuthPassword | packages/f8assetcloud_worker/src/password.js:22-29 | a password is accepted exactly when the hash parses and the derived key equals the stored one |
| PasswordHash.VerifiesIffSameKey | packages/f8assetcloud_worker/src/password.js:11-29 | against the stored hash of a password another verifies exactly when both derive the same key |
| PcapReplay.SelectUdpPackets | scripts/udp_pcap_replay.py:149-177 | with one remembered time for each key, the loop keeps exactly the packets that repeat no kept one, counts what it read, and stops at the packet that fills the limit |
| PcapReplay.KeptAreApart | scripts/udp_pcap_replay.py:166-171 | with a positive window, kept packets of one key are pairwise more than the window apart, even when capture times go back |
| PcapReplay.DroppedIffRepeats | scripts/udp_pcap_replay.py:166-173 | a packet is dropped exactly when an earlier kept one of its key lies at most the window before it |
| PcapReplay.RepeatsIff | scripts/udp_pcap_replay.py:144-146 | a packet repeats another exactly when sender, receiver and payload agree and it is no more than the window later |
| PcapReplay.RewrittenIs | scripts/udp_pcap_replay.py:113-141 | rewriting keeps time and payload and every address and port that no option replaces |
| PcapReplay.KeptGrows | scripts/udp_pcap_replay.py:149-177 | reading on only appends to what is kept |
| PcapReplay.LatestDecides | scripts/udp_pcap_replay.py:167-171 | comparing with the last kept time of a key is comparing with all of them |
| PcapReplay.Batches | scripts/udp_pcap_replay.py:192-212 | no batch is empty, there are batches exactly when there are packets, and the last packet is last |
| PcapReplay.TickIsInterval | scripts/udp_pcap_replay.py:190-198 | a packet's tick is the interval of one over the rate, start included, that its offset from the first packet lies in; earlier packets fall into the first |
| PcapReplay.BatchesFlatten | scripts/udp_pcap_replay.py:192-212 | the batches in a row are the packets |
| PcapReplay.BatchesAreTicks | scripts/udp_pcap_replay.py:190-212 | when capture times do not fall, each batch is exactly the packets of one tick and ticks strictly increase |
| PcapReplay.FixedRatePacketBatches | scripts/udp_pcap_replay.py:180-212 | the loop makes exactly those batches, or one batch for each packet when the rate is not positive |

## Left out

- DesktopSessions.RedeemedInTimeIff: how late a redemption can be is not bounded, as the time between the two statements of a request has no bound in the model.
- DesktopCodes.OnePairPerCode: the worker's own checks on client ids and loopback redirects, which come before any statement, are not modelled; they only refuse more.
- DesktopCodes.DesktopCodeTable.IssueDesktopTokenPair: counts the pair; the session row it inserts is the business of `DesktopSessions`.
- WorkerRateLimit.WorkerRateLimiter.Enforce: takes keys already trimmed.
- AssetRaces.AlwaysWholeIff: follows one asset's head, versions and calls; owners, names, visibility and subscriptions are not part of the interleaved model.
- AssetStore.ContentReadIff: a payload is its text under an opaque name, its size and its shape; which JSON values are well formed for a type is not spelled out.
- AssetStore.CreateDoes: ids, names, tags and notes are taken already trimmed and absent ones as absent; timestamps are numbers.
- LikeEscape.ApplyAssetQueryFilters: takes the query already trimmed and lower-cased.
- LuaBridge.LuaToJson: numbers are reals and integer keys unbounded, so fractional number keys, which the code truncates, and the width of 64-bit integers and doubles are not modelled.
- LuaBridge.LooksLikeArray: number keys are integers here; fractional ones, which the code truncates, are not modelled.
- LuaBridge.OrderMattersIff: which order a Lua table has is not modelled; the theorem is about all orders, and each table inside a value may be read in its own.
- DataPickNode.DataPick.ComputeOutput: coercion of the picked value to a number, boolean or string is a parameter.
- SkeletonPacket.BuildSkeletonPacket: takes the computed poses; the sine motion of the stub and the rounding of doubles to floats are not modelled.
- SkeletonPacket.DecodeSkeletonPacket: decodes the trailer and its animation block but nothing is proved about building them, since the stub never does.
- RateLimiter.RunKeeps: holds for fixed parameters; a change of the bounds may make the output jump into the new ones.
- RateLimiter.RateLimiterNode.OnState: takes numbers; a value that is not one, which leaves the parameter as it was, is not modelled.
- RangeMap.RangeMapNode.OnState: takes numbers and the curve already recognised; values that are not numbers, and upper-casing and matching the curve's name, are left out.
- AudioChunker.AudioCapture.HandleCaptured: works on whole frames; the interleaving of a frame's samples and 32-bit overflow in byte counts are not modelled, nor is what becomes of a chunk handed to the publisher.
- PasswordHash.ParsePasswordHash: what a numeric text means is a parameter, since the language accepts more than decimal digits.
- PcapReplay.SelectUdpPackets: packets arrive parsed; link layers and checksums are left out, as are sleeping, sending and progress output.
- Floating-point rounding anywhere.
- The interval that limits how often a request purges: a purge may come at any moment of a run.
- HTTP routing, pages, e-mail, browser sessions, roles, site settings and the administration of users.
- The listing queries beyond their search clauses: cursors, visibility and owner filters.
- SHA-256, PBKDF2 and gzip themselves.
- Threads, devices, networking and the script interpreter behind the operators.
