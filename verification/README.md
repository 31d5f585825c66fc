# Verified model of the CrowdSec dashboard core

This project models the stateful core of the dashboard in Dafny and proves what it is meant to keep:

- the incremental `is_duplicate` flags of decisions, which must agree with a full re-rank after any run (`DecisionDuplicates`, `DecisionDuplicateRuns`, `DecisionDuplicateLimits`, `DecisionVisibility`, `DecisionStore`);
- accounts, sessions, SSO links and back-channel logouts as one state machine (`Accounts`, `AccountSteps`, `AccountInvariants`, `AccountSessions`, `AccountLogout`, `AccountAccess`, `AccountAuthority`, `AccountRoutes`, `AccountGuards`, `AccountStore`, `AccountExamples`);
- the writer-preferring read/write lock around published revisions (`PublishedRevisionLock`);
- environment overrides written into the configuration tree (`ConfigTree`, `ConfigOverrides`, `ConfigTables`, `ConfigEnvironment`);
- the full-text index and its row mapping (`SearchIndex`, `SearchIndexStore`), and the allowlist diff (`AllowlistSync`, `AllowlistDiff`, `AllowlistStore`);
- the decision layout of the load test (`DecisionLayout`), Prometheus labels (`PrometheusLabels`, `PrometheusInputs`), CIDR ranges and the allowlist matcher (`AddressRanges`, `AllowlistMatcher`, `AllowlistReasons`), and version ordering (`VersionOrder`).

`Wrappers`, `Collections`, `Numbers`, `Ordering` and `Text` are shared helpers. Objects that the original updates in place are classes whose methods are tied, field by field, to a step of the specification; the theorems are lemmas about that specification, and what it means for a reader of the columns, texts and settings is stated without its functions. `dafny verify dfyconfig.toml` checks everything.

## Premises

- **Duplicate flags.** One connection; a row change and its dirty marker are one atomic step; `now` never decreases; values are null or non-empty. The flag write and the marker write of a refresh are two steps, and a crash between them is covered. The comment at server/database.ts:1566-1567 justifies the retention cleanup by the age of the removed rows alone; the proof shows more: an unlimited cleanup is safe for any cutoff, a limited batch for any cutoff that is not in the future.
- **Accounts.** Authentication is enabled. A holder's password or authenticator change and a provider's logout are two steps each, a check and a later write; every other route is one step, although some wait for a hash in between. Null and empty password hashes count as one; issuer and subject are set together. The starting database satisfies the invariant, which a fresh installation does, and which leaves out rows of older releases that have a password and an SSO identity but no link time (server/database.ts:2336-2338): `ProviderKeepsLocalSessionIff` says of every row with a password which provider events end its local sessions. Signatures, hashes, codes and digests are opaque; session ids are numbered; times are integers.
- **Lock.** Every call, release and timer firing is one atomic step; request numbers stand for arrival order.
- **Configuration.** The YAML parser is a parameter. `ConfigOverrides` states its results for any table of sections, values and secrets that holds names only, nothing inside a list, and no setting followed by one that contains it; `ConfigTables` proves this of the shipped tables (server/config-file.ts:651-736).
- **Search index.** SQLite hands out a rowid that is not in use. Full-text search is available.
- **Allowlists.** `DiffRightIff` is about snapshots that name no item twice; the methods take any snapshot.
- **Text.** Strings are sequences of characters; code points outside the basic plane are single characters here.

## Findings

- When a row's value is null, `updateDecision` takes the value of the second key it marks from the payload, but the row keeps its null value. If the payload has a value and the simulated flag flips, the row's new group goes unmarked. `UpdateFollowedIff` gives the exact condition, `UpsertFollowedIff` that of an upsert that moves a row.
- `updateDecision` on an id that is not stored inserts a search entry for it: agreement survives exactly when the id exists (`UpdateAgreesIff`).
- A sign-out row expires at the 30-day mark while a token of that session is still accepted in that very second, and in no other: `SignedOutTokenReturnsIff`. The row of a provider logout has the same second for a token issued in the second of the logout: `SidLogoutTokenReturnsIff`.
- A logout token passes its age check before the write that applies it. After any run, later sign-ins included, a second delivery that waits takes effect exactly when the marker of the first has expired (`ReplayTakesEffectIff`); `DelayedReplayEndsLaterSignIn` is a run in which it ends a later sign-in.
- A password or authenticator change does not look at its session again after its check. It takes effect exactly when the account still exists, whatever ended the session meanwhile, and signs a token that is accepted unless the account is disabled (`CheckedChangeTakesEffectIff`). In `EndedSessionSetsPassword` it overwrites the password an administrator has just reset and lifts the demand for a new one.
- On a row with a password, an SSO identity and no link time, a denial, a logout of the user or a sign-in with a changed role ends local sessions too: `ProviderKeepsLocalSessionIff`.
- Confirming a link merges away a separate account of the identity and does not check for the last administrator: `ConfirmLinkKeepsAdminIff`, with a run in which the last one is lost in `LastAdminLinkedAway`.
- A label named `__proto__` is lost, because a plain object takes no string there: `RoundTripIff`.
- A prerelease of 7 to 40 hexadecimal characters, such as the date `20240101`, counts as a commit hash and compares equal to the release: `AgainstItsRelease`, `BelowReleaseIff`.
- The allowlist item key joins list name and value with NUL. Among the cached items whose list the snapshot keeps, a cached row can be claimed by another item with the same key text. `DiffRightIff` gives the exact condition on the keys under which the diff is right for all row contents, and `FailingReplacement` runs a snapshot through the whole method after which an item that should be gone is there and one that should be there is not.
- IPv6 text with an embedded IPv4 address (section 2.2 of RFC 4291, form 3) is refused: `MixedFormRefused`.

## Model

| member | source | states |
|---|---|---|
| DecisionDuplicates.RanksBeforeTotal | server/database.ts:2008-2014 | the window order is total and irreflexive on distinct ids |
| DecisionDuplicates.RanksBeforeTransitive | server/database.ts:2008-2014 | the window order is transitive |
| DecisionDuplicates.RankIsTimeless | server/database.ts:2004-2024 | for an active row the flag depends on the group's rows only, not on the time of ranking |
| DecisionDuplicates.OneVisibleRowPerGroup | server/database.ts:2004-2031 | with flags equal to the full rank, each group with an active row shows exactly its maximum under (stop time, numeric id, id), and expired rows are unflagged |
| DecisionDuplicateRuns.RefreshedKeysMatchFull | server/database.ts:2034-2134 | re-ranking the pending and newly expired keys of a settled table gives the rows of a full re-rank |
| DecisionDuplicateRuns.JoinRanksLikeTable | server/database.ts:2083-2112 | ranking inside the join of the dirty keys is ranking in the whole table |
| DecisionDuplicateRuns.RefreshStoresFullRank | server/database.ts:1984-2140 | whichever branch a refresh takes, it stores the rows of a full re-rank |
| DecisionDuplicateRuns.FullRefreshMatches | server/database.ts:2000-2024 | the full pass sets every flag to the full rank |
| DecisionDuplicateRuns.OldRowsRankBelow | server/database.ts:1530-1569 | removing rows older than a cutoff changes no settled flag: any cutoff when all go, a cutoff not after the present when some go |
| DecisionDuplicateRuns.StepKeepsInv | server/database.ts:1396-1594 | every insert, update, delete, cleanup, refresh, crashed refresh and restart keeps the cache invariant |
| DecisionDuplicateRuns.RefreshKeepsInv | server/database.ts:1984-2161 | a refresh keeps the invariant, also when the process dies between the flag write and the marker write |
| DecisionDuplicateRuns.RunKeepsInv | server/database.ts:1918-2161 | the invariant holds over every run whose clock never goes back |
| DecisionDuplicateRuns.IncrementalRefreshIsFullRank | server/database.ts:1938-2161 | after any run, crashes and restarts included, an incremental refresh leaves exactly the flags of a full re-rank |
| DecisionDuplicateRuns.PendingWorkSurvivesRestart | server/database.ts:1918-1959 | while keys are dirty in memory, the stored markers make a reload start uninitialised |
| DecisionDuplicateRuns.CleanRestartRefreshesIncrementally | server/database.ts:1918-1936 | from clean markers a new process ranks only groups with an expired member, and ends with the full rank |
| DecisionDuplicateRuns.UntrustedStartIsSafe | server/database.ts:1931-1936 | markers that are dirty, missing or of another rank version give a safe start over any rows |
| DecisionVisibility.CountsAsIff | server/database.ts:2008-2014 | an id counts as the number of its leading digits, at most the largest 64-bit integer, and as -1 without any; as nothing else |
| DecisionVisibility.FlaggedIff | server/database.ts:2004-2024 | a row is flagged exactly when it is active and an active row of its instance, value and simulated flag outranks it: later stop time, then larger number, then later id |
| DecisionVisibility.RefreshShowsTheBest | server/database.ts:1938-2161 | after any run, crashes and restarts included, a refresh writes no column but the flag, and flags exactly those rows |
| DecisionVisibility.LargestNumberIsShown | server/database.ts:2008-2014 | of active rows that differ in their decimal ids alone, the one with the largest number is shown |
| DecisionVisibility.InsertStores | server/database.ts:1396-1444 | an insert stores every column of the row, keeps the instance of a stored one, and clears the flag of a row that changes |
| DecisionVisibility.UpdateStores | server/database.ts:1470-1501 | an update stores stop time, simulated flag and the other derived columns, and leaves the rest and every other row |
| DecisionVisibility.DeletionsTake | server/database.ts:1530-1586 | deleting by alerts takes exactly their rows, a cleanup exactly those that stopped before the cutoff |
| Ordering.LexLessIff | server/database.ts:2014 | text order: at the first difference the text ends or has the smaller character |
| DecisionDuplicateLimits.UpdateFollowedIff | server/database.ts:1470-1501 | an update is followed in every table exactly when it does not miss the row's new key, or the row lands there expired and unflagged |
| DecisionDuplicateLimits.UpsertFollowedIff | server/database.ts:1396-1444 | an upsert is followed in every table exactly when it keeps the row's key, or the row had expired or was a duplicate |
| DecisionDuplicateLimits.MissedFlaggedUpdate | server/database.ts:1470-1501 | the table in which a missed duplicate stays flagged |
| DecisionDuplicateLimits.MissedUnflaggedUpdate | server/database.ts:1470-1501 | the table in which a missed row stays visible beside a better one |
| DecisionDuplicateLimits.MissedUpsert | server/database.ts:1396-1444 | the table in which moving a row by upsert leaves its old group wrong |
| DecisionStore.EncodeKeyInjective | server/database.ts:1942-1949 | the text of a dirty key identifies its value and simulated flag |
| DecisionStore.DecisionTable.LoadRefreshState | server/database.ts:1918-1936 | the fields become what the stored markers say, dirty keys untouched |
| DecisionStore.DecisionTable.MarkKey | server/database.ts:1938-1959 | one key is marked, in memory and in the stored marker |
| DecisionStore.DecisionTable.MarkKeys | server/database.ts:1980-1981 | marking keys one by one marks the set |
| DecisionStore.DecisionTable.MarkKeysByIds | server/database.ts:1961-1982 | the keys of the given rows are marked, whatever the chunking |
| DecisionStore.DecisionTable.InsertDecision | server/database.ts:1396-1444 | the insert step of the specification, and whether a row changed |
| DecisionStore.DecisionTable.UpdateDecision | server/database.ts:1470-1501 | the update step: the two keys it marks and the row it writes |
| DecisionStore.DecisionTable.DeleteByIds | server/database.ts:1588-1594 | the delete step and the number of rows that went |
| DecisionStore.DecisionTable.DeleteByAlerts | server/database.ts:1578-1586 | the delete step for the decisions of some alerts |
| DecisionStore.DecisionTable.DeleteOldDecisions | server/database.ts:1530-1569 | old rows go unmarked, at most `limit` of them, all of them without a limit |
| DecisionStore.DecisionTable.ClearSyncData | server/database.ts:1029-1050 | the table, the memory and the markers are reset |
| DecisionStore.UniqueKeys | server/database.ts:2043-2049 | dropping repeated key texts keeps the set of keys |
| DecisionStore.DecisionTable.CollectKeys | server/database.ts:2034-2049 | the dirty keys and those of rows that expired since the last refresh, once each |
| DecisionStore.DecisionTable.RefreshAll | server/database.ts:2000-2031 | the full pass: rows, markers, memory and the number of changed flags |
| DecisionStore.DecisionTable.RefreshKeys | server/database.ts:2058-2140 | the pass over some keys: rows, markers, memory and the number of changed flags |
| DecisionStore.DecisionTable.RefreshDuplicateFlags | server/database.ts:1984-2140 | the refresh step of the specification; from every state the invariant covers, the flags are the full rank |
| PublishedRevisionLock.EveryRunIsSafe | server/published-revision-lock.ts:9-76 | in every interleaving of requests, releases and timeouts: counts match tokens, writers exclude, nobody waits forgotten, grants in arrival order |
| PublishedRevisionLock.StepKeepsInv | server/published-revision-lock.ts:17-75 | each atomic step keeps that invariant |
| PublishedRevisionLock.WriterIsAlone | server/published-revision-lock.ts:24-27 | a writer excludes every other holder |
| PublishedRevisionLock.WaitingImpliesHolder | server/published-revision-lock.ts:65-75 | whoever waits, somebody holds the lock |
| PublishedRevisionLock.EveryRequestHasOneFate | server/published-revision-lock.ts:17-75 | in every run each request is granted once, or waits, or gave up, and only one of these: no promise is lost and none is resolved twice |
| PublishedRevisionLock.TimedOutIsNeverGranted | server/published-revision-lock.ts:31-37 | a writer that timed out is granted neither before nor after |
| PublishedRevisionLock.TimeoutLeavesLine | server/published-revision-lock.ts:32-34 | a timeout takes exactly that writer out of the line |
| PublishedRevisionLock.ReaderNeverOvertakesWriter | server/published-revision-lock.ts:17-22 | a reader that arrives behind a waiting writer is granted only after it, unless the writer gave up |
| PublishedRevisionLock.ReleaseMakesProgress | server/published-revision-lock.ts:46-63 | with no arrivals, an effective release leaves fewer waiters, or as many waiters and fewer holders |
| PublishedRevisionLock.TimeoutMakesProgress | server/published-revision-lock.ts:31-37 | with no arrivals, an effective timeout leaves fewer waiters, and one waiter or holder less in all |
| PublishedRevisionLock.EveryWaiterIsServed | server/published-revision-lock.ts:31-75 | in any order, effective releases and timeouts number the waiters and holders gone, and with no holder left nobody waits |
| PublishedRevisionLock.LockCanBeEmptied | server/published-revision-lock.ts:46-75 | from any reachable state some sequence of releases leaves the lock free and the queues empty |
| PublishedRevisionLock.Lock.AcquireRead | server/published-revision-lock.ts:17-22 | the arrival step of a reader; if it waits, somebody holds the lock |
| PublishedRevisionLock.Lock.AcquireWrite | server/published-revision-lock.ts:24-41 | the arrival step of a writer; if it waits, somebody holds the lock |
| PublishedRevisionLock.Lock.DrainQueues | server/published-revision-lock.ts:65-75 | the drain step: the first writer alone, or all waiting readers |
| PublishedRevisionLock.Lock.ReleaseRead | server/published-revision-lock.ts:43-52 | the release step; a second release changes nothing |
| PublishedRevisionLock.Lock.ReleaseWrite | server/published-revision-lock.ts:54-63 | the release step; a second release changes nothing |
| PublishedRevisionLock.Lock.TimerFires | server/published-revision-lock.ts:31-37 | the timeout step; it rejects exactly a writer still in the queue |
| AccountInvariants.StepIsGood | server/app-auth.ts:1148-1241 | every step moves each account's version counters forward only and keeps "password and SSO identity means linked" |
| AccountInvariants.StepIssuesOne | server/app-auth.ts:1148-1194 | a step issues at most one token, for one account, with the current versions |
| AccountInvariants.StepKeepsInv | server/app-auth.ts:1148-1241 | every route, sign-in, provider event and clock tick keeps the account invariant |
| AccountInvariants.RunKeepsInv | server/app-auth.ts:1148-1241 | the account invariant holds over every run |
| AccountInvariants.EmptyInv | server/app-auth.ts:1650-1678 | a fresh installation satisfies the invariant |
| AccountAuthority.OnlyAdministratorsReachOthers | server/app-auth.ts:1417-1423 | whoever is not the first account, the provider, or the holder by an accepted session or a checked change, alters an account only by an accepted session with administrator access by the rows, or by merging it away |
| AccountAuthority.OnlyAdministratorsChangeSettings | server/app-auth.ts:1772-1845 | settings change only by such a session |
| AccountAuthority.StepKeepsReadOnly | server/app-auth.ts:1417-1423 | a step makes a read-only account an administrator only when an administrator sets its role, or the provider grants it at a sign-in or in a confirmed link |
| AccountAuthority.ReadOnlyNeverBecomesAdmin | server/app-auth.ts:1417-1423 | over any run without such a step, no session of a read-only account has administrator access |
| AccountAuthority.SignInGivesProviderRole | server/app-auth.ts:2187-2209 | an SSO sign-in issues one session, of an account with that identity, with exactly the access the provider gave |
| AccountAuthority.DenialTakesRole | server/database.ts:795-803 | a denial takes the provider's role from the identity's accounts and nothing from others |
| AccountRoutes.CreationAllowedIff | server/app-auth.ts:1478-1508 | an administrator may create an account exactly under a free name |
| AccountRoutes.AccountCreated | server/app-auth.ts:1478-1508 | the new account has the name, role and password demand asked for, and no other account changes |
| AccountRoutes.AccountPatched | server/app-auth.ts:1510-1544 | role and switch are set as asked; only the version changes beside them |
| AccountRoutes.PromotionAllowed | server/app-auth.ts:1510-1544 | an administrator may promote or enable any other account with a password |
| AccountRoutes.PasswordReset | server/app-auth.ts:1546-1568 | an administrator may reset exactly the other accounts that do not live at the provider alone; the reset sets password, demand and version, nothing else |
| AccountRoutes.FactorsReset | server/app-auth.ts:1570-1586 | the account's passkeys go, its version rises, and no other account changes |
| AccountRoutes.AccountDeleted | server/app-auth.ts:1605-1622 | the account and its passkeys go, and no other account changes |
| AccountRoutes.AccountUnlinked | server/database.ts:2434-2453 | identity and provider role go; password, own role and name stay |
| AccountRoutes.AccountLinked | server/database.ts:2393-2432 | the account gets identity and provider role beside its own role and password |
| AccountRoutes.SettingsSaved | server/app-auth.ts:1772-1845 | each setting that was given is stored, the others stay |
| AccountRoutes.FirstAccount | server/app-auth.ts:1650-1678 | the first account is an administrator whose session is accepted |
| AccountRoutes.LocalSignInAccepted | server/app-auth.ts:1680-1706 | a sign-in by password or passkey issues an accepted session of 30 days with the account's own access |
| AccountRoutes.SsoSignInAccepted | server/app-auth.ts:2187-2196 | the session of an SSO sign-in is accepted unless its account is disabled or the provider has ended that session |
| AccountRoutes.CookieRefreshed | server/app-auth.ts:1231-1241 | a refresh signs an accepted token of the same session, until 30 days after its sign-in |
| AccountRoutes.HolderStaysSignedIn | server/app-auth.ts:2271-2347 | linking or unlinking the own account starts a new accepted session of the same kind |
| AccountGuards.LocalSignInIff | server/app-auth.ts:1680-1706 | password sign-in takes an enabled account with a password while password login is on; passkey sign-in an enabled account that does not live at the provider alone |
| AccountGuards.SetupIff | server/app-auth.ts:1650-1678 | the first account is created exactly while there is none and password login is on |
| AccountGuards.SessionAcceptedIff | server/app-auth.ts:1196-1229 | a token is accepted exactly while it is signed, unexpired and not signed out, its account is enabled and has its version, and an SSO one is at most a day old and not ended by the provider |
| AccountGuards.SessionRoutesIff | server/app-auth.ts:1708-1980 | exactly what a sign-out, a cookie refresh, a credential change and a passkey registration ask of the session |
| AccountGuards.OwnPasskeyDeleted | server/app-auth.ts:2013-2030 | only a passkey of the session's own account goes, and no other |
| AccountGuards.PasskeyRegistered | server/app-auth.ts:2048-2085 | a new passkey is added for the session's account |
| AccountGuards.OwnLinkNeeds | server/app-auth.ts:2271-2347 | a link or unlink takes a local session; a link also the account version it began with, and an identity whose other accounts have no password and are enabled |
| AccountGuards.ManagedAccount | server/app-auth.ts:1510-1617 | administrators manage existing accounts other than their own, and no credentials of accounts that live at the provider alone |
| AccountGuards.PatchAllowedIff | server/app-auth.ts:1510-1544 | a patch of a managed account is refused exactly where it would demote or disable the last administrator or the last way in |
| AccountGuards.RemovalAllowedIff | server/app-auth.ts:1570-1622 | so are an unlink, a reset of the second factors and a deletion |
| AccountGuards.PasskeyDeletionIff | server/app-auth.ts:2013-2030 | and the deletion of one's own passkey |
| AccountGuards.SettingsAllowedIff | server/app-auth.ts:1772-1845 | settings are refused exactly where they are managed, or would leave password login off without another way in |
| AccountGuards.ManagedSettingsStay | server/app-auth.ts:1772-1845 | no step changes a setting that the configuration manages |
| AccountGuards.ProviderNeeds | server/app-auth.ts:2349-2371 | the provider's events take a configured provider, and a logout token not older than five minutes that names a user or a session |
| AccountGuards.CheckedLogoutIff | server/app-auth.ts:2361-2371 | a logout is applied exactly when that token was checked before |
| AccountGuards.AutoLinkIff | server/app-auth.ts:1408-1414 | a sign-in links unasked exactly an enabled local account of the trusted username that was never unlinked, where the setting allows it and the identity's own account may be merged |
| AccountGuards.SignInAccount | server/database.ts:2319-2354 | otherwise it belongs to the identity's account, else to an unclaimed SSO account of that name, else to a new one |
| AccountSessions.ProviderStepKeepsLocalSession | server/database.ts:2319-2509 | an accepted password or passkey session stays accepted across any provider event, with the same name and access |
| AccountSessions.ProviderRunKeepsLocalSession | server/app-auth.ts:1196-1229 | over any run of provider events, until it expires |
| AccountSessions.ProviderKeepsLocalSessionIff | server/database.ts:2319-2509 | on any row with a password, linked or not, a provider event ends a local session exactly when the row has its identity without a link, and for a sign-in when its role changes |
| AccountSessions.GoneStaysGone | server/app-auth.ts:1196-1229 | no step makes an ended session acceptable again |
| AccountSessions.LossIsForGood | server/app-auth.ts:1196-1229 | a step that takes away an accepted session takes it away for good, or is one of two kinds of logout whose row ends in the token's last second |
| AccountSessions.SpentStaysSpent | server/app-auth.ts:1196-1229 | no step revives a token whose rows last until its last second |
| AccountSessions.EndedSessionNeverReturns | server/app-auth.ts:1148-1241 | once any step has ended a session, no later reachable state accepts its token, other than in its very last second after those two kinds of logout |
| AccountLogout.SidLogoutEndsExactly | server/database.ts:2455-2488 | a logout naming a session ends that session's tokens and the named user's tokens without one, and no others |
| AccountLogout.SubjectLogoutEndsExactly | server/database.ts:2478-2480 | a logout naming only the user ends that identity's sessions and no others |
| AccountLogout.DenialEndsExactly | server/database.ts:795-803 | a denial at sign-in ends that identity's sessions and no others |
| AccountLogout.RoleChangeEndsSessions | server/database.ts:2319-2377 | a changed SSO role outdates the SSO sessions of a linked account, and all sessions of an SSO-only one |
| AccountLogout.RoleChangeEndsSessionsForGood | server/app-auth.ts:2187-2196 | after a sign-in that changes the role, an automatic link to another account included, no later reachable state accepts those sessions |
| AccountLogout.LogoutTakesEffectOnce | server/database.ts:2455-2488 | over any run, pruning included, a second delivery of an (issuer, jti) changes nothing until the marker has expired, which is after the token's age check stops admitting it |
| AccountLogout.ReplayTakesEffectIff | server/app-auth.ts:2361-2371 | after any run with no younger logout of that token id, a delivery that was checked in time can be applied, and takes effect exactly when the marker has expired by then |
| AccountExamples.DelayedReplayEndsLaterSignIn | server/app-auth.ts:2361-2371 | a run in which such a delivery ends a later sign-in |
| AccountLogout.CheckedChangeTakesEffectIff | server/app-auth.ts:1868-1980 | after any run, a credential change that was checked takes effect exactly when its account exists, and the token it signs is accepted exactly when the account is not disabled |
| AccountExamples.EndedSessionSetsPassword | server/app-auth.ts:1868-1895 | a run in which a session ended by an administrator's reset sets the password and gets a fresh token |
| AccountLogout.HolderChangeEndsSessions | server/app-auth.ts:1868-1980 | a holder's password change, authenticator change, unlink or verified link outdates every earlier token |
| AccountLogout.AdminChangeEndsSessions | server/app-auth.ts:1510-1622 | a disable, credential reset, unlink or deletion by an administrator outdates every token of the account |
| AccountLogout.AccountChangeEndsSessionsForGood | server/database.ts:2246-2287 | after any of those steps, no later reachable state accepts a token the account had |
| AccountLogout.SignedOutTokenReturnsIff | server/app-auth.ts:1708-1730 | after a sign-out and any run, any token of that session, whenever signed, is accepted exactly in its last second, only with the full 30 days, and only if its account still accepts it |
| AccountLogout.SignedOutTokenReturns | server/app-auth.ts:1704-1706 | a password sign-in always issues a token for which that second exists |
| AccountLogout.SidLogoutTokenReturnsIff | server/database.ts:2511-2515 | after a provider logout of a session and any run, a token it named is accepted exactly in its last second, and only if it was issued in the second of the logout |
| AccountAccess.StepKeepsSignInPossible | server/app-auth.ts:884-897 | every route and provider event keeps a way for an administrator to sign in, managed or pinned |
| AccountAccess.NoRunLocksOut | server/app-auth.ts:965-979 | over any run some way to sign in remains |
| AccountAccess.PatchKeepsPasskey | server/app-auth.ts:1520-1536 | with only passkeys left, a role change or disable keeps a usable administrator passkey |
| AccountAccess.RemovalKeepsPasskey | server/app-auth.ts:1570-1618 | with only passkeys left, a credential reset or deletion keeps a usable administrator passkey |
| AccountAccess.DeletePasskeyKeepsPasskey | server/app-auth.ts:2013-2030 | with only passkeys left, deleting a passkey keeps another usable one |
| AccountAccess.ConfirmLinkKeepsPasskey | server/database.ts:2393-2432 | merging an account loses no usable passkey |
| AccountAccess.StepKeepsAdmin | server/app-auth.ts:910-928 | no step inside the dashboard that keeps the issuer, settings updates included, removes the last active administrator |
| AccountAccess.NoRunRemovesLastAdmin | server/app-auth.ts:1520-1617 | nor does any run of such steps, in any order |
| AccountAccess.ConfirmLinkKeepsAdminIff | server/app-auth.ts:2271-2314 | confirming a link keeps an administrator exactly when another account is one or the link grants it |
| AccountExamples.LastAdminLinkedAway | server/app-auth.ts:2271-2314 | a run from a fresh installation after which a confirmed link removes the last administrator |
| AccountStore.LinkKeepsUnique | server/database.ts:2393-2432 | linking keeps usernames and identities unique |
| AccountStore.UpsertKeepsUnique | server/database.ts:2319-2377 | so does an SSO sign-in |
| AccountStore.AccountTables.constructor | server/app-auth.ts:1650-1678 | a fresh installation, with usernames and identities unique |
| AccountStore.AccountTables.GetByIdentity | server/database.ts:2211-2216 | the account that owns an identity, if any |
| AccountStore.AccountTables.GetByUsername | server/database.ts:2207-2209 | the account with a username, if any |
| AccountStore.AccountTables.DeleteAuthUser | server/database.ts:2279-2287 | the account and its passkeys are removed |
| AccountStore.AccountTables.LinkOidcIdentity | server/database.ts:2393-2432 | the link step, including the merge and every refusal |
| AccountStore.AccountTables.AutoLinkOidcUser | server/app-auth.ts:1408-1414 | the automatic link by username, or no change |
| AccountStore.AccountTables.FindOidcAccount | server/database.ts:2319-2354 | the account a sign-in belongs to and the one its username belongs to |
| AccountStore.AccountTables.UpsertOidcUser | server/database.ts:2319-2377 | the sign-in step: refresh, claim, create, or refuse |
| AccountStore.AccountTables.DenyOidcIdentity | server/database.ts:2503-2509 | the denial step |
| AccountStore.AccountTables.RevokeOidcUserSessions | server/database.ts:2490-2496 | the revocation step of one identity |
| AccountStore.AccountTables.BumpOidcLogoutVersion | server/database.ts:2518-2520 | the version goes up only for an identity with an account |
| AccountStore.AccountTables.RevokeOidcSession | server/database.ts:2512-2515 | a row for the session is kept, expired rows are pruned |
| AccountStore.AccountTables.ApplyOidcLogout | server/database.ts:2455-2488 | the logout step: record once, then revoke what is named |
| ConfigTree.GetConfigPath | server/config-file.ts:926-935 | the walk reads what the document holds at the path, nothing below a leaf |
| ConfigTree.GetSet | server/config-file.ts:906-925 | a write is read back, whatever containers had to be created or replaced |
| ConfigTree.GetSetOther | server/config-file.ts:906-925 | a write along a path that parts ways changes nothing elsewhere |
| ConfigTree.SetChild | server/config-file.ts:922-924 | assigning a field or element changes it and no other |
| ConfigOverrides.TargetShape | server/config-file.ts:738-797 | every known indexed variable addresses a place inside a list with numbers only where lists are, and an authentication type ends in `type` |
| ConfigOverrides.SortOrders | server/config-file.ts:879-884 | the sort rearranges, shorter paths first, authentication types first among equals |
| ConfigOverrides.ResetErasesSiblings | server/config-file.ts:1175 | writing an authentication type empties the rest of its block |
| ConfigOverrides.WriteSurvives | server/config-file.ts:1147-1178 | in a list of writes where later ones only refine, each unrefined one is read back |
| ConfigOverrides.OverrideSurvives | server/config-file.ts:1135-1180 | for any fixed tables, every applied override that no other one refines reads back its own value at its own path |
| ConfigTables.ShippedTableIsFixed | server/config-file.ts:651-736 | the shipped tables hold names only, nothing inside a list, and no setting followed by one that contains it |
| ConfigTables.ShippedOverrideSurvives | server/config-file.ts:1135-1180 | with the shipped tables, every applied override that no other one refines reads back its own value at its own path |
| ConfigTables.ShippedOthersUntouched | server/config-file.ts:1135-1180 | with the shipped tables, a setting that no override touches, contains or refines keeps its value |
| ConfigTables.ApplyShippedEnvironment | server/config-file.ts:1135-1180 | the document with every write of the shipped variables made in order, or the first error |
| ConfigEnvironment.ValueReadsBack | server/config-file.ts:1147-1149 | a section or value that is set in the environment reads back as its parsed text, unless a variable that is set addresses a place inside it |
| ConfigEnvironment.SecretReadsBack | server/config-file.ts:1150-1157 | likewise a secret as a reference to its variable, or to the file its other variable names |
| ConfigEnvironment.VariableReadsBack | server/config-file.ts:1158-1178 | likewise each indexed variable as its parsed text or reference, at the place its name says |
| ConfigEnvironment.SettingUntouched | server/config-file.ts:1135-1180 | a setting stays when no variable that is set addresses it, a place in it or around it, and no authentication type empties its block |
| ConfigEnvironment.TypeEmptiesBlock | server/config-file.ts:1175 | beside an authentication type that is set, what no variable sets in the block is gone |
| ConfigEnvironment.AppliedIff | server/config-file.ts:1135-1180 | the environment is applied exactly when every text parses, no secret is given twice, every indexed variable is known, and no two address one setting |
| ConfigEnvironment.TargetAddresses | server/config-file.ts:738-797 | the numbers in a variable's name pick the instance, the endpoint and the element |
| ConfigOverrides.OthersUntouched | server/config-file.ts:1135-1180 | for any fixed tables, a setting that no override touches, contains or refines keeps its value |
| ConfigOverrides.ConflictRefused | server/config-file.ts:870-878 | two variables for one setting are refused whatever else is set |
| ConfigOverrides.CollectOverrides | server/config-file.ts:812-885 | the overrides of all variables, sorted, or the first error |
| ConfigOverrides.CheckDistinct | server/config-file.ts:870-878 | the map of paths finds a repeated path exactly when there is one |
| ConfigOverrides.ApplyPlain | server/config-file.ts:1147-1157 | the fixed tables in order, or the first error |
| ConfigOverrides.ApplyIndexed | server/config-file.ts:1158-1178 | the indexed overrides in order, or the first parse error; the second check for doubly set secrets never fires |
| ConfigOverrides.ApplyConfigEnvironment | server/config-file.ts:1135-1180 | the document with every write made in order, or the first error |
| SearchIndex.StepKeepsInv | server/database.ts:1094-1130 | every mutation, deferral and rebuild keeps the mapping a bijection and the index right about every id not touched while deferred |
| SearchIndex.RunKeepsInv | server/database.ts:1094-1130 | so does every run; with no id left stale the index agrees with the decisions |
| SearchIndex.ImmediateRunAgrees | server/database.ts:2824-2898 | without deferral, and updating stored decisions only, the index always agrees |
| SearchIndex.ScopedRebuildAgreesIff | server/database.ts:1187-1231 | a scoped rebuild restores agreement exactly when its scope covers every id that disagrees |
| SearchIndex.DeferredWorkRepaired | server/database.ts:1062-1130 | a scope that covers what was touched repairs any work done while deferred |
| SearchIndex.UpdateAgreesIff | server/database.ts:1470-1501 | an update keeps agreement exactly when the decision is stored |
| SearchIndex.UpsertAgrees | server/database.ts:2824-2833 | after an upsert the id has one entry, with the new text, and no other entry changed |
| SearchIndex.RemovalAgrees | server/database.ts:2868-2884 | removing decisions with their entries keeps the rest as it was, in either order |
| SearchIndex.DecisionStored | server/database.ts:1396-1444 | an insert stores the decision as given, deferred or not, and no other |
| SearchIndex.DecisionUpdated | server/database.ts:1470-1501 | an update changes stop time, text and columns of a stored decision, and stores none |
| SearchIndex.DecisionsDeleted | server/database.ts:1578-1594 | deletions take exactly the decisions named, or those of the alerts named |
| SearchIndex.OldDecisionsDeleted | server/database.ts:1530-1569 | a cleanup takes only decisions that stopped before the cutoff, without a limit all of them |
| SearchIndex.RebuildsExactly | server/database.ts:3654-3664 | a rebuild leaves one entry, with its text, for each decision whose text is not empty; a scoped one for its scope, the other entries as they were |
| SearchIndexStore.NextRowid | server/database.ts:2835-2840 | a new entry gets an unused rowid |
| SearchIndexStore.SearchTables.InsertRow | server/database.ts:2835-2840 | an entry and its mapping are added |
| SearchIndexStore.SearchTables.DeleteSearchIndexes | server/database.ts:2868-2884 | the entries of the ids go, whatever the chunking |
| SearchIndexStore.SearchTables.InsertDecision | server/database.ts:1396-1444 | the insert step, indexed unless deferred; nothing happens when no column differs |
| SearchIndexStore.SearchTables.UpdateDecision | server/database.ts:1470-1501 | the update step, indexed unless deferred, stored or not |
| SearchIndexStore.SearchTables.DeleteDecision | server/database.ts:1571-1576 | the delete step; the entry goes even while deferred |
| SearchIndexStore.SearchTables.DeleteCachedDecisions | server/database.ts:1588-1594 | the delete step for many ids; entries go even while deferred |
| SearchIndexStore.SearchTables.DeleteCachedAlerts | server/database.ts:1578-1586 | the delete step by alerts; entries stay while deferred |
| SearchIndexStore.SearchTables.DeleteOldDecisions | server/database.ts:1530-1569 | the cleanup step on all expired rows, or on as many as the limit says; entries stay while deferred |
| SearchIndexStore.SearchTables.BeginDeferredSearchIndexUpdates | server/database.ts:1062-1092 | updates are deferred, and the index cleared if asked |
| SearchIndexStore.SearchTables.Backfill | server/database.ts:3654-3664 | one entry for every decision with text, with its text |
| SearchIndexStore.SearchTables.SynchronizeRows | server/database.ts:3667-3681 | tables of different size get a new mapping, which is a bijection; of equal size, nothing happens |
| SearchIndexStore.SearchTables.RebuildAllSearchIndexes | server/database.ts:1098-1106 | from any tables at all, a mapping that is no bijection included, the index agrees afterwards and updates are no longer deferred |
| SearchIndexStore.SearchTables.RebuildScopedSearchIndexes | server/database.ts:1187-1231 | the scoped rebuild step: the scope is indexed afresh, the rest is as it was |
| AllowlistSync.WantedItemIsListed | server/database.ts:1657-1668 | a wanted row is some item of the snapshot under its list |
| AllowlistSync.ListedItemIsWanted | server/database.ts:1657-1668 | every item of the snapshot is wanted with its own fields |
| AllowlistSync.ListReadsBack | server/database.ts:1606-1641 | after a replacement each list reads back each of its fields, lists the snapshot lacks are gone, other instances' are as before |
| AllowlistSync.ItemReadsBack | server/database.ts:1657-1673 | and each item its fields; nothing else is left of the instance |
| AllowlistSync.CacheKeyInjective | server/database.ts:1648 | item keys are apart as long as list names hold no NUL |
| AllowlistStore.AllowlistTables.UpsertLists | server/database.ts:1606-1634 | the snapshot's lists are written over the cached ones, nothing is written exactly when they were there and no name comes twice, and the names left over are those the snapshot lacks |
| AllowlistStore.AllowlistTables.DeleteStaleLists | server/database.ts:1635-1641 | the named lists and their items go, and nothing else |
| AllowlistStore.AllowlistTables.CachedItems | server/database.ts:1643-1649 | the lookup holds, for every key text, one of the instance's cached rows that have it |
| AllowlistStore.AllowlistTables.UpsertItems | server/database.ts:1650-1668 | the loops claim or write the snapshot's items one after the other and count the writes |
| AllowlistStore.AllowlistTables.DeleteStaleItems | server/database.ts:1669-1673 | the items left in the lookup go, and nothing else |
| AllowlistStore.AllowlistTables.ReplaceAllowlists | server/database.ts:1596-1677 | the instance's lists become the snapshot's; its items come out of the diff, and are the snapshot's, with `changed` exactly when something differed or the snapshot repeats a list or an item, where every cached key can only be claimed by its own item; other instances keep theirs |
| AllowlistStore.ReplaceTwice | server/database.ts:1596-1600 | where the condition holds and the wanted items share no key text, a second call with the same snapshot changes no row, and writes nothing exactly when the snapshot repeats no list and no item |
| AllowlistDiff.ClaimableReplaces | server/database.ts:1643-1673 | under that condition the diff replaces the instance's rows, and writes nothing exactly when nothing differs and no item comes twice |
| AllowlistDiff.DiffRightIff | server/database.ts:1643-1673 | the diff is right for all rows the keys can have, in any order of the query, exactly under that condition |
| AllowlistDiff.CleanNamesAreClaimable | server/database.ts:1648 | list names without NUL meet the condition |
| AllowlistStore.FailingReplacement | server/database.ts:1596-1677 | one snapshot through the whole method, after which the cached item is still there and the wanted one is not |
| AllowlistStore.KeysCollide | server/database.ts:1648 | every way to split a name at NUL gives two items under one key |
| DecisionLayout.NormalizeLoadTestBlocklistDecisionCounts | scripts/load-test-shape.ts:72-88 | the loop gives the positive counts cut off where the decisions run out |
| DecisionLayout.NormalizeGives | scripts/load-test-shape.ts:72-88 | every count is positive and together they give what was asked for, up to what there is |
| DecisionLayout.NormalizeFollows | scripts/load-test-shape.ts:72-88 | the counts are the positive ones in the order asked for, the last cut to what is left |
| DecisionLayout.EmptyAlertsGranted | scripts/load-test-shape.ts:90-123 | empty alerts are granted as asked, as far as there are alerts besides the blocks and one for decisions left over |
| DecisionLayout.ResolveDecisionLayout | scripts/load-test-shape.ts:90-123 | the resolved layout, with the leftover decisions on the last block when no regular alert takes them |
| DecisionLayout.ResolveIsConsistent | scripts/load-test-shape.ts:90-123 | blocks, regular alerts and empty alerts fit the alert count, and leftover decisions have a regular alert |
| DecisionLayout.GetLoadTestDecisionIdsForAlertLayout | scripts/load-test-shape.ts:125-150 | the generator yields the alert's list |
| DecisionLayout.GetLoadTestSourceAlertIdForDecisionLayout | scripts/load-test-shape.ts:152-169 | the lookup loop finds the decision's alert |
| DecisionLayout.ListedIffOwned | scripts/load-test-shape.ts:125-169 | an alert lists exactly the decisions that look up to it |
| DecisionLayout.ListedExactly | scripts/load-test-shape.ts:125-150 | decisions are dealt block after block, and the rest one by one to the regular alerts in turn |
| DecisionLayout.EveryDecisionIsOwned | scripts/load-test-shape.ts:152-169 | every decision has an alert that is not one of the trailing empty ones |
| DecisionLayout.ListsPartition | scripts/load-test-shape.ts:125-150 | each decision from 1 to the count is in exactly one list, and nothing else is in any |
| DecisionLayout.ListedAscends | scripts/load-test-shape.ts:125-150 | no alert lists a decision twice |
| DecisionLayout.EmptyAlertsListNothing | scripts/load-test-shape.ts:141 | the trailing empty alerts list nothing |
| DecisionLayout.BlockLoad | scripts/load-test-shape.ts:132-138 | a block alert lists as many decisions as its count says |
| DecisionLayout.RegularLoadsAreEven | scripts/load-test-shape.ts:142-149 | the loads of regular alerts differ by at most one |
| PrometheusLabels.ReadQuoted | server/metrics.ts:148-164 | the value loop reads a quoted value and stops behind its closing quote or at the end |
| PrometheusLabels.ReadLabelAt | server/metrics.ts:137-166 | one round reads one label and moves on, or ends |
| PrometheusLabels.ParsePrometheusLabels | server/metrics.ts:132-170 | the index loops end on every input with the labels read |
| PrometheusLabels.ReadEscaped | server/metrics.ts:148-164 | an escaped value is read back as it was |
| PrometheusLabels.ParsePrint | server/metrics.ts:132-170 | parsing undoes printing, for any values and any separators of commas and white space |
| PrometheusLabels.AsMapHolds | server/metrics.ts:166 | the map holds each label's value under its name, other than under `__proto__` |
| PrometheusLabels.RoundTripIff | server/metrics.ts:132-170 | every printed label comes back exactly when none is called `__proto__`, and nothing else does |
| PrometheusInputs.ParseReadsPieces | server/metrics.ts:132-170 | however a text is cut into separators, names and quoted bodies and an end, the parser keeps exactly their labels, escapes undone and names trimmed |
| PrometheusInputs.EveryTextIsRead | server/metrics.ts:132-170 | every text, well formed or not, is cut so; each name holds the last value found for it, an empty name and `__proto__` nothing |
| AddressRanges.ParseOctets | scripts/load-test-allowlists.ts:110-115 | the loop gives the address of the octets, or nothing |
| AddressRanges.ParseGroups | scripts/load-test-allowlists.ts:126-131 | the loop gives the address of the groups, or nothing |
| AddressRanges.ParseAddress | scripts/load-test-allowlists.ts:107-132 | an address with a colon is read as IPv6, any other as IPv4 |
| AddressRanges.Ipv4AcceptedIff | scripts/load-test-allowlists.ts:107-116 | exactly four dotted parts of one to three digits, each at most 255, are read, with their value |
| AddressRanges.Ipv6AcceptedIff | scripts/load-test-allowlists.ts:118-132 | exactly forms 1 and 2 of section 2.2 of RFC 4291 are read, in either case, with or without leading zeros, with the value of their groups |
| AddressRanges.MixedFormRefused | scripts/load-test-allowlists.ts:128 | so form 3, with an embedded IPv4 address, is refused |
| AddressRanges.RangeAcceptedIff | scripts/load-test-allowlists.ts:134-145 | exactly an address, or an address, a slash and a prefix length that fits, is a range, white space around it aside |
| AddressRanges.RangeDenotes | scripts/load-test-allowlists.ts:134-145 | an accepted range denotes exactly the addresses of its family that have, in the first bits that its prefix length counts, the bits of its address |
| AddressRanges.BlockIsSharedPrefix | scripts/load-test-allowlists.ts:143-144 | a range is the addresses that agree with its own in all but the host bits |
| AddressRanges.RangesNest | scripts/load-test-allowlists.ts:134-145 | two parsed ranges are nested or disjoint |
| AddressRanges.ContainmentIsOverlap | scripts/load-test-allowlists.ts:169 | the two containment tests succeed exactly when query and entry share an address |
| AllowlistMatcher.SortLive | scripts/load-test-allowlists.ts:160-169 | filtering by expiry commutes with the stable sort by name |
| AllowlistMatcher.EntriesWithoutExpired | scripts/load-test-allowlists.ts:176-183 | the entries of the filtered listing are the live entries of the listing |
| AllowlistMatcher.MatcherFollowsListing | scripts/load-test-allowlists.ts:151-183 | at any time the matcher answers, reason for reason, as one run over the listing of that time |
| AllowlistMatcher.AllowlistedIff | scripts/load-test-allowlists.ts:162-172 | a value is allowlisted exactly when an unexpired item of its family shares an address with it |
| AllowlistReasons.MatchListsReasons | scripts/load-test-allowlists.ts:151-172 | the matcher gives exactly one reason for each unexpired item that shares an address with the value, spelled out, in the order of the list names and of the listing among equal names |
| AllowlistMatcher.ListingKeeps | scripts/load-test-allowlists.ts:176-183 | the filtered listing has every list under its name |
| AllowlistMatcher.LiveItemsJoin | scripts/load-test-allowlists.ts:176-183 | an item stays in its place exactly when it has no expiration, the zero one, or one in the future |
| Text.NumberInjective | server/crowdsec-update-check.ts:170 | without leading zeros a number is written in one way |
| Text.SplitJoin | server/crowdsec-update-check.ts:143 | splitting undoes joining |
| Text.JoinSplit | scripts/load-test-allowlists.ts:121-122 | joining undoes splitting |
| Text.NumberOfDecimal | server/crowdsec-update-check.ts:142 | a number reads back from its decimal notation |
| Text.NumberOfHexadecimal | scripts/load-test-allowlists.ts:129 | and from its hexadecimal notation in either case |
| Text.TrimStrips | server/crowdsec-update-check.ts:139 | trimming takes the white space off both ends and nothing else |
| VersionOrder.CompareIdentifiers | server/crowdsec-update-check.ts:162-174 | the loop gives the sign of the first differing identifier |
| VersionOrder.CompareCore | server/crowdsec-update-check.ts:153-155 | the loop gives the sign of the first differing core number |
| VersionOrder.CompareVersions | server/crowdsec-update-check.ts:149-175 | the comparison of two version texts, or the error when one is invalid |
| VersionOrder.CompareAntisymmetric | server/crowdsec-update-check.ts:149-175 | swapping flips the sign; zero exactly for equal cores and prereleases, commit hashes aside |
| VersionOrder.CompareTransitive | server/crowdsec-update-check.ts:149-175 | the order is transitive, strictly so when one step is strict |
| VersionOrder.CompareIsPrecedence | server/crowdsec-update-check.ts:156-173 | the order is that of section 11 of Semantic Versioning 2.0.0 on versions without their commit hashes |
| VersionOrder.BelowReleaseIff | server/crowdsec-update-check.ts:134-136 | a prerelease ranks below its release exactly when it does not read as a commit hash |
| VersionOrder.AgainstItsRelease | server/crowdsec-update-check.ts:134-161 | a release with 7 to 40 hexadecimal digits appended compares equal to the release; any other accepted suffix ranks below it |
| VersionOrder.AcceptedIff | server/crowdsec-update-check.ts:138-147 | exactly the texts of the form described are versions, white space around them aside, with these numbers and identifiers |
| VersionOrder.PartOrder | server/crowdsec-update-check.ts:167-172 | identifiers compare as the standard says, and are equal only when the same |
| VersionOrder.ParsedIsWellFormed | server/crowdsec-update-check.ts:143-145 | what the parser accepts has no empty identifier and no number with a leading zero |
| VersionOrder.ParseWritten | server/crowdsec-update-check.ts:138-147 | a written version is read back with its numbers and its prerelease |

## Left out

- DecisionStore.DecisionTable.InsertDecision: it takes a resolved row; the choice of internal ids, deletion tombstones and the reading of payloads are not part of this model.
- AllowlistDiff.DiffRightIff: a snapshot that repeats an item is not covered; the methods and `ClaimableReplaces` cover it.
- AccountSessions.EndedSessionNeverReturns: it is false in the last second of a token after a sign-out or a provider logout; `SignedOutTokenReturnsIff` and `SidLogoutTokenReturnsIff` say exactly when.
- SearchIndexStore.SearchTables.RebuildAllSearchIndexes: the cooperative rebuild, which lets other work run between batches, is not modelled.
- AccountAccess.StepKeepsAdmin: covers steps inside the dashboard; the provider may take its own roles back, a changed issuer makes SSO roles of the old one lapse, and a confirmed link is covered by `ConfirmLinkKeepsAdminIff`.
- ConfigOverrides.ApplyConfigEnvironment: variable names arrive split into their parts; the regular expressions that split them, the record of previous values and applyIndexedCollectionDefaults are not part of this model. The tree is a value, so in-place aliasing is not modelled.
- ConfigTables.ApplyShippedEnvironment: likewise.
- PrometheusLabels.ParsePrometheusLabels: strings are characters, not UTF-16 units, so lone surrogates are not covered.
- VersionOrder.CompareVersions: numbers are unbounded; the safe-integer check is kept.
- Alerts in the full-text index: rowid and id are one number there, so there is no mapping to agree with.
- Handlers of the authentication routes are steps of a state machine rather than methods: request parsing, cookies, failure buckets, WebAuthn challenges, the pending-link cookie and audit output are plumbing.
- Two connections at once: the sync worker and the query service are not part of this model.
- Upserts in one statement of the temporary key table where a null and an empty value meet: values are null or non-empty.
- The metrics summaries, the initial YAML document, the migration of old databases and the generated allowlist data: sums, rendering and data.
