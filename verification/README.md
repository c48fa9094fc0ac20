# A verified model of the FinOps backend

The project models the engines of the backend that carry state, arithmetic or a grammar, and proves what
callers rely on. Objects that the backend updates in place are classes here: repositories, the connection
registry, the event bus, the limiters, the alert, pricing and aggregation services and the authentication
service. Each method is proved against a function on plain values, and the theorems over whole runs are about
these functions.

- **Pagination** (`Pagination`, `CascadeDelete`): keyset pages over a table that other clients keep changing,
  whole walks along `next_cursor`, and the account cascade that uses one page as if it were everything.
- **Real time** (`ConnectionManager`, `EventBus`, `Events`, `Resume`): the two-index registry with bounded queues,
  the capped replay list with resume-from-id, and the channel names both sides must agree on. Every client is
  compared with a private mailbox that knows of no registry and no other client, and `Resume` puts bus, dispatch
  loop and registry into one run for the client that reconnects.
- **Accounts** (`Credentials`, `Accounts`, `Sessions`, `OneTimeTokens`, `Workspaces`, `Lifecycle`, `AuthService` and
  the proofs in `AccountMoves`, `AccountSafety`, `AccountRuns`, `AccountFacts`, `AccountPaths`, `AccountEffects`,
  `GoogleIdentities`, `AccountRows`, `AccountNewRows`, `WorkspaceRows`, `AccountAnswers`): `Lifecycle` gives every
  service call as a total function from database to database, with the clock, identifiers and random tokens as
  arguments; an exception leaves the database unchanged. `AuthService` is the service itself, statement by statement
  over its repositories, with commit and rollback. `Inv` is the invariant of every reachable database; the row
  theorems say what each call does to each row, and that it leaves everybody else's alone.
- **Schema recovery** (`DdlSplit`, `DdlParser`, `DdlNames`, `SchemaDiff`, `RepairPlan`, `PlanOrder`, `Recommend`,
  `RevisionChain`): the splitter on characters, the interpreter as a fold over statements, the names each statement
  leaves, the diff as a patch, the repair plan, the recommender over any revisions, and the chains of migrations in
  which its match is unique.
- **Budgets and alerts** (`Calendar`, `BudgetPeriod`, `Alerts`, `BudgetAlerts`, `Reevaluation`): the proleptic
  Gregorian calendar, the period windows as a partition of it, forecasts over exact arithmetic, deduplicated firing,
  and the exact number of alerts that one more evaluation creates.
- **Costs** (`PricingVersions`, `PricingEngine`, `Aggregation`, `SummaryTotals`): disjoint price versions, half-up
  pricing in units of 1e-8, the rebuild of the daily summaries, and what the rebuilt table adds up to.
- **Limits** (`RateLimit`, `Lockout`, `SendLimits`, `HttpRetry`, `Slug`): sliding windows over runs that interleave
  keys, the exponential lock, the provider retry loop, and the search for a free slug.

`Outcomes`, `Sorting` and `Text` are shared helpers.

Tables are maps from primary keys to rows, SQL statements are their effect on these rows, times are numbers and
money is counted in units of 1e-8. SHA-256 is an injective constructor. The random generators appear as
arguments; a repeated primary key is the database's IntegrityError, and a repeated random token is an error
that is given the name `RepeatedToken`.

## Where the code and its documentation part

- A limit of 0 (or -1) makes `list_page` announce more rows without a cursor to follow
  (`Pagination.HasMoreWithoutCursor`).
- The account cascade asks for 1000 children to leave no orphans, but every page is cut at 100: exactly the
  children beyond the first hundred stay live (`CascadeDelete.OrphansLeft`, `CascadeDelete.CascadeIsComplete`).
- A replay buffer of size 0 keeps everything, one of negative size nothing (`EventBus.BufferContents`).
- Email and slug checks look at live rows only while the unique constraints cover deleted rows. After an account
  is deleted its address passes the service's own check and is then refused by the database, and so is a
  workspace whose slug a deleted workspace had (`AccountFacts.AddressRegistersOnce`,
  `AccountFacts.RegistrationSucceedsIff`). In the same way a deleted account keeps its Google identity for good:
  nobody signs in with it or links it any more (`GoogleIdentities.GoogleSignInSucceedsIff`,
  `GoogleIdentities.LinkingSucceedsIff`, `GoogleIdentities.DeletedIdentityIsBurnt`).
- The schema model's docstring promises nullability in the comparison; the diff compares names only
  (`SchemaDiff.MatchIffSameNames`, `DdlParser.NullabilityIsInvisible`).
- The recommender's documentation says the cumulative object set strictly increases and that therefore at most one
  revision can match (backend/app/dbtools/recommend.py:3-15). The chain does not only grow:
  backend/migrations/versions/20260629_0600_c3d4e5f6a7b8_ep04_1_user_identity_completion.py drops the index
  `ix_users_is_active` and the column `users.is_active`, and
  backend/migrations/versions/20260707_0412_cf91180d80ff_ep20_drop_duplicate_external_id_columns.py only drops. For
  any revisions at most one matches, for every live schema, exactly when no two parseable ones expect the same names
  (`Recommend.OneMatchIffNoTwins`). For a chain of any statements it is enough that each migration after the first
  changes a name for good: adds one that no later migration drops, or drops one that no later migration re-creates
  (`RevisionChain.LastingMigrationsHaveNoTwins`), as each migration of the repository does; in a chain that only
  grows, adding a name in every migration is also necessary (`RevisionChain.GrowingChainMatchesOnceIff`). Adding a
  name in every migration is not enough when names are dropped, too (`RevisionChain.AddingEachTimeIsNotEnough`), and a
  migration that only sets NOT NULL always has a twin (`Recommend.NullabilityMigrationIsAmbiguous`).
- The repair plan has no step for extra indexes, extra constraints and extra enums (`RepairPlan.PlanLength`).
- Reopening an alert can leave two open alerts with one key (`Alerts.ReopenKeepsOneOpen`, `Alerts.ReopenCanDuplicate`).
- Evaluating budgets again is called idempotent (backend/app/budgets/service.py:180-186). It is while the alerts stay
  open: an evaluation creates exactly one alert per key it fires that has none open (`Reevaluation.NewAlerts`), hence
  none exactly when all of them are open (`Reevaluation.AddsNothingIff`). An alert that was acknowledged, resolved or
  dismissed absorbs nothing, and the next evaluation creates another one (`Reevaluation.ClosedAlertFiresAgain`).
- A weekly budget cannot be resolved in the last, incomplete week of the year 9999 (`BudgetPeriod.WeeklyOverflow`),
  and day counts need not add up for a backwards custom window (`BudgetPeriod.DaysAddUp`).
- A rebuild over records without a project fails the second time, because NULLs do not conflict on the unique
  key (`Aggregation.RebuildSucceeds`, `Aggregation.SecondRebuildFails`); a soft-deleted summary stays deleted
  when it is rebuilt (`Aggregation.RebuildIsExact`).
- A rebuild never removes the summary of a group that has lost its records, and a recalculated record may change its
  currency and day (backend/app/repositories/usage_cost_record_repository.py:36-92). The rebuilt table therefore adds
  up to the records exactly when what such stale summaries add equals what soft-deleted ones hide
  (`SummaryTotals.RebuiltTableTotal`, `SummaryTotals.ConservesIffCancelling`); one moved record is enough to break it
  (`SummaryTotals.MovedRecordIsStillCounted`).
- A login lock is not always kept: a request that passed the check before the lock may still record a success, and
  the failures of the fresh streak that follow replace the lock by the shortest one, 30 seconds after a lock of 900
  with the defaults (`Lockout.LockHoldsIff`, `Lockout.ShorterOnlyAfterRestart`,
  `Lockout.RestartedStreakSetsShortestLock`). Failures recorded only while no lock is in force never shorten it
  (`Lockout.UnlockedFailureNeverShortens`).

## Model

| member | source | states |
|---|---|---|
| Pagination.PageIsPrefix | backend/app/repositories/base_repository.py:201-253 | for a limit of at least 1 a page is the first min(limit, 100) of the ordered rows; has_more and a next_cursor, the last row's, appear exactly when a matching row was left behind |
| Pagination.OrderedMeaning | backend/app/repositories/base_repository.py:204-239 | a query finds exactly the live rows that pass the filter and lie past the cursor, each once, in (created_at, id) order or its reverse |
| Pagination.PageSize | backend/app/repositories/base_repository.py:201-242 | with k matching rows a page of limit 1 to 100 holds min(limit, k) rows and one of a larger limit min(100, k); has_more exactly when more match |
| Pagination.PageFailsIff | backend/app/repositories/base_repository.py:209-253 | a request fails exactly for a malformed cursor, noticed first, or a limit below -1, and a limit of 0 or -1 yields no rows |
| Pagination.HasMoreWithoutCursor | backend/app/repositories/base_repository.py:239-251 | has_more comes without a cursor exactly for limit -1, or limit 0 with a matching row |
| Pagination.PageFacts | backend/app/repositories/base_repository.py:201-253 | for every limit the items are a sorted prefix of the matching rows and the cursor points at the last of them |
| Pagination.WalkIsSorted | backend/app/repositories/base_repository.py:203-253 | whatever happens between the pages, the collected keys are strictly increasing (or decreasing) and past the starting cursor |
| Pagination.WalkReturnsNoRowTwice | backend/app/repositories/base_repository.py:174-253 | a walk over a table that others insert into, soft-delete, restore, remove from and edit never returns a row twice, as long as no removed primary key is used again |
| Pagination.WalkIsComplete | backend/app/repositories/base_repository.py:184-253 | every row that matches at every page of a finished walk is returned |
| Pagination.StaticWalk | backend/app/repositories/base_repository.py:184-253 | on an unchanging table the pages concatenate to exactly the sorted filtered table |
| Pagination.StaticWalkLength | backend/app/repositories/base_repository.py:201-253 | the walk ends after exactly as many pages as the rows fill, one when there are none |
| Pagination.Repository.Create | backend/app/repositories/base_repository.py:134-139 | inserts the row under a new primary key, or refuses and changes nothing |
| Pagination.Repository.SoftDeleteAll | backend/app/repositories/base_repository.py:161-172 | marks exactly the fetched rows deleted and touches nothing else |
| Pagination.Repository.List | backend/app/repositories/base_repository.py:201-253 | decoding the cursor, fetching one row more than asked, trimming and encoding the next cursor yield the page of the specification |
| Pagination.Repository.Select | backend/app/repositories/base_repository.py:204-239 | the statement built clause by clause fetches the first rows of the sorted, filtered table past the pivot |
| Pagination.RetireItems | backend/app/repositories/base_repository.py:161-172 | soft-deleting what a query returned leaves exactly its other matches |
| CascadeDelete.DeletePage | backend/app/auth/service.py:657-666 | one page of at most 100 children is deleted although 1000 were asked for |
| CascadeDelete.DeleteEvery | backend/app/auth/service.py:667-672 | an unpaginated listing deletes every live child |
| CascadeDelete.OrganizationStore.CascadeDeleteOrganization | backend/app/auth/service.py:634-679 | the new state of all five child tables and of the organization itself |
| CascadeDelete.OrphansLeft | backend/app/auth/service.py:639-666 | with n live children exactly max(n - 100, 0) stay live |
| CascadeDelete.CascadeIsComplete | backend/app/auth/service.py:652-666 | no orphan is left exactly when there were at most 100 children |
| CascadeDelete.CascadeIsScoped | backend/app/auth/service.py:657-666 | children of other organizations are untouched |
| ConnectionManager.ConnectionManager.Register | backend/app/realtime/connection_manager.py:126-151 | the new client has an empty queue and both indexes gain it |
| ConnectionManager.ConnectionManager.Unregister | backend/app/realtime/connection_manager.py:153-169 | both indexes lose the client, and an organization without clients disappears; unknown ids change nothing |
| ConnectionManager.ConnectionManager.Dispatch | backend/app/realtime/connection_manager.py:173-193 | exactly the organization's clients are offered the event; a full queue drops it and the counters say so |
| ConnectionManager.ConnectionManager.FanOut | backend/app/realtime/connection_manager.py:176-193 | the loop over the members, in any order, has the effect of offering the event to each once |
| ConnectionManager.ConnectionManager.Receive | backend/app/realtime/connection_manager.py:227-238 | takes the oldest queued event of this client only |
| ConnectionManager.ConnectionManager.ConnectionCount | backend/app/realtime/connection_manager.py:210-213 | the index yields the number of clients that really belong to the organization |
| ConnectionManager.RegisterKeepsIndex | backend/app/realtime/connection_manager.py:126-151 | by_org stays exactly the inverse of the connections, with no empty set |
| ConnectionManager.UnregisterKeepsIndex | backend/app/realtime/connection_manager.py:153-169 | by_org stays exactly the inverse of the connections, with no empty set |
| ConnectionManager.RunRefinesMailboxes | backend/app/realtime/connection_manager.py:126-193 | in every run the indexes agree, and each client's queue is that of a private 256-place mailbox |
| ConnectionManager.MailboxesAreSound | backend/app/realtime/connection_manager.py:173-193 | delivered plus queued is an order-preserving subsequence of what was offered, at most 256 are queued, and every offered event is delivered, queued or dropped |
| ConnectionManager.OfferedIsOwnOrganization | backend/app/realtime/connection_manager.py:173-193 | what a client is offered is exactly what its organization dispatched since it registered |
| ConnectionManager.NoDropWithoutOverflow | backend/app/realtime/connection_manager.py:183-193 | a client never 256 events behind loses nothing |
| EventBus.EventBus.Publish | backend/app/realtime/event_bus.py:57-81 | the event is sent and appended to the trimmed list, or lost as a whole when Redis fails |
| EventBus.EventBus.ReplaySince | backend/app/realtime/event_bus.py:83-114 | unreadable entries are skipped, and the scan returns what follows the first event with the id, everything if there is none |
| EventBus.BufferContents | backend/app/realtime/event_bus.py:65-74 | each list holds exactly the newest events of its lifetime, whatever other organizations do |
| EventBus.ReplaySinceId | backend/app/realtime/event_bus.py:83-114 | for an event of the lifetime exactly the last min(N, k) of the k later events, in order; no gap exactly while k is at most N |
| EventBus.PublishReachesItsOrganization | backend/app/realtime/event_bus.py:57-81 | the dispatch loop reads back the organization and event that were published |
| Resume.OfferedSinceRegistration | backend/app/realtime/connection_manager.py:173-193 | in a run of publishing, dispatching, registering and receiving, a client is offered exactly what was dispatched since it registered |
| Resume.ResumeHasNoGap | backend/app/api/v1/realtime.py:194-228 | replay list and bounded queue together give a reconnecting client everything after its last event, and what was dispatched since it registered, exactly when at most N events were published in between and its queue dropped none |
| Resume.ResumedClientMissesNothing | backend/app/api/v1/realtime.py:194-228 | a client never 256 events behind misses nothing, and gets twice exactly what was published between registration and replay |
| Events.ParseStr | backend/app/realtime/events.py:79-91 | reading a printed UUID gives the UUID back |
| Events.ParseLenient | backend/app/realtime/events.py:79-91 | braces, capitals and the URN prefix make no difference when a UUID is read |
| Events.ChannelRoundTrip | backend/app/realtime/events.py:71-91 | org_id_from_channel inverts org_channel |
| Events.ChannelsAreDistinct | backend/app/realtime/events.py:71-76 | two organizations never share a channel |
| Events.ChannelIsNamed | backend/app/realtime/events.py:71-76 | a channel is the prefix and the lower-case hexadecimal digits in groups of 8, 4, 4, 4 and 12 |
| Sessions.SessionRepository.GetActive | backend/app/repositories/session_repository.py:24-37 | finds the row exactly when it is neither revoked nor expired |
| Sessions.SessionRepository.GetActiveByTokenHash | backend/app/repositories/session_repository.py:39-48 | the one active row with the hash, none, or the error for several |
| Sessions.SessionRepository.SetRevoked | backend/app/repositories/session_repository.py:50-58 | revokes this row only |
| Sessions.SessionRepository.RevokeAllForUser | backend/app/repositories/session_repository.py:60-72 | revokes the user's unrevoked rows only |
| Sessions.SessionRepository.RevokeAllForUserExcept | backend/app/repositories/session_repository.py:74-95 | revokes the user's unrevoked rows but one |
| Sessions.SessionRepository.SetToken | backend/app/repositories/session_repository.py:97-115 | replaces hash and expiry and never clears revoked_at |
| Sessions.KeepsTokensApart | backend/app/repositories/session_repository.py:39-115 | no two sessions ever share a token hash |
| Sessions.ConsumedStays | backend/app/repositories/session_repository.py:97-115 | a hash no session holds any more is never held again |
| Sessions.InactiveStays | backend/app/repositories/session_repository.py:50-115 | no statement the service reaches revives a revoked or expired session |
| Sessions.RevokeAllEnds | backend/app/repositories/session_repository.py:60-72 | afterwards no session of the user is active |
| Sessions.RevokeOthersKeepsOne | backend/app/repositories/session_repository.py:74-95 | afterwards at most the kept session of the user is active, and it and all other users' rows are unchanged |
| OneTimeTokens.TokenRepository.GetValidByHash | backend/app/repositories/verification_token_repository.py:24-34 | the one unused, unexpired row with the hash, none, or the error for several |
| OneTimeTokens.TokenRepository.InvalidateForUser | backend/app/repositories/verification_token_repository.py:46-61 | marks exactly the user's unused tokens used |
| OneTimeTokens.TokenRepository.MarkUsed | backend/app/repositories/password_reset_token_repository.py:36-44 | marks this token used |
| OneTimeTokens.KeepsOneEach | backend/app/repositories/verification_token_repository.py:36-61 | a user never has two unused tokens, and no two rows share a hash |
| OneTimeTokens.SpentStays | backend/app/repositories/password_reset_token_repository.py:24-58 | a used token is never valid again |
| OneTimeTokens.IssueSpendsOlder | backend/app/auth/service.py:764-784 | issuing a token spends every earlier token of the user |
| Accounts.UserRepository.GetByEmail | backend/app/repositories/user_repository.py:31-35 | the live user with the address, none, or the error for several |
| Accounts.UserRepository.EmailExists | backend/app/repositories/user_repository.py:56-73 | true exactly when a live user has the address |
| Accounts.UserRepository.Create | backend/app/models/user.py:162-168 | the row is stored, or refused when its address or Google identity is held by any row, deleted or not |
| Accounts.KeepsSound | backend/app/models/user.py:162-168 | addresses and Google identities stay unique and live users keep a way to sign in |
| Accounts.AddressIsBurnt | backend/app/models/user.py:162-163 | a second row with an address is refused even when the first is deleted |
| Workspaces.WorkspaceRepository.CreateWorkspace | backend/app/auth/service.py:142-174 | the organization with the first free slug and its owner membership, or the refusal of the unique slug constraint |
| Workspaces.WorkspaceRepository.LinkPendingByEmail | backend/app/repositories/membership_repository.py:147-165 | links exactly the unlinked memberships of the address |
| Workspaces.WorkspaceRepository.ListByUserEmail | backend/app/repositories/membership_repository.py:83-106 | the memberships of the address in live organizations, oldest first |
| Workspaces.WorkspaceRepository.HasOtherMembers | backend/app/auth/service.py:704-705 | true exactly when another address is a member |
| Workspaces.PersonalOfMeaning | backend/app/auth/service.py:212-222 | the upgrade finds a workspace exactly when the address has a live personal one |
| Workspaces.PersonalOfIsOldest | backend/app/auth/service.py:212-222 | in any table the upgrade takes the oldest membership that makes its address an owner of a live personal workspace, and none exactly when there is none |
| Workspaces.UpgradeLeavesNone | backend/app/auth/service.py:224-226 | after the upgrade the address has no personal workspace |
| Workspaces.ListedOwners | backend/app/auth/service.py:701-709 | the two loops of the deletion see exactly the organizations the address owns |
| Lifecycle.CurrentUser | backend/app/auth/dependencies.py:80-103 | only an active session of a live, enabled user is let in |
| AuthService.AuthService.IssueSession | backend/app/auth/service.py:102-138 | follows the state machine; errors change nothing |
| AuthService.AuthService.CurrentUser | backend/app/auth/dependencies.py:89-103 | the same answer as the state machine |
| AuthService.AuthService.Register | backend/app/auth/service.py:240-312 | commits exactly the transition of the state machine and rolls back on every refusal |
| AuthService.AuthService.Login | backend/app/auth/service.py:316-357 | commits exactly the transition of the state machine and rolls back on every refusal |
| AuthService.AuthService.GoogleAccount | backend/app/auth/service.py:399-442 | resolves a Google identity in three ways: linked, same address, or new |
| AuthService.AuthService.LoginOrRegisterWithGoogle | backend/app/auth/service.py:369-467 | commits exactly the transition of the state machine; a disabled account is not left linked |
| AuthService.AuthService.LinkGoogle | backend/app/auth/service.py:469-494 | commits exactly the transition of the state machine |
| AuthService.AuthService.UnlinkGoogle | backend/app/auth/service.py:496-515 | commits exactly the transition of the state machine |
| AuthService.AuthService.LogOut | backend/app/auth/service.py:519-521 | revokes the session |
| AuthService.AuthService.ChangePassword | backend/app/auth/service.py:585-604 | commits exactly the transition of the state machine |
| AuthService.AuthService.SetPassword | backend/app/auth/service.py:608-630 | commits exactly the transition of the state machine |
| AuthService.AuthService.UpgradeToBusiness | backend/app/auth/service.py:191-238 | the search loop finds the first personal ownership; commits exactly the transition |
| AuthService.AuthService.DeleteAccount | backend/app/auth/service.py:681-712 | commits exactly the transition of the state machine |
| AuthService.AuthService.DeleteOwned | backend/app/auth/service.py:701-709 | refuses before it deletes anything, or deletes every owned workspace |
| AuthService.AuthService.Refresh | backend/app/auth/service.py:716-753 | commits exactly the transition of the state machine |
| AuthService.AuthService.CreateVerificationToken | backend/app/auth/service.py:764-784 | invalidates older tokens and stores the new one |
| AuthService.AuthService.ResendVerificationEmail | backend/app/auth/service.py:796-811 | silent when there is nothing to verify, otherwise a new token |
| AuthService.AuthService.VerifyEmail | backend/app/auth/service.py:813-838 | commits exactly the transition of the state machine |
| AuthService.AuthService.CreatePasswordResetToken | backend/app/auth/service.py:842-875 | silent for an unknown address, otherwise a new token that replaces the older ones |
| AuthService.AuthService.ResetPassword | backend/app/auth/service.py:877-893 | commits exactly the transition of the state machine |
| AuthService.AuthService.Rollback | backend/app/api/deps.py:25-35 | restores every table |
| AccountMoves.CallMoves | backend/app/auth/service.py:76-893 | every call moves each table by at most one of a few statements, reached only under the stated guards |
| AccountRows.SessionRows | backend/app/auth/service.py:519-893 | what every session row is after every successful call, from the row before: only signing out, changing the password, deleting the account, resetting the password and refreshing touch one |
| AccountRows.VerificationRows | backend/app/auth/service.py:764-838 | what every verification token is after every successful call: a newer token of its user or its own redemption spends it |
| AccountRows.ResetRows | backend/app/auth/service.py:842-893 | what every reset token is after every successful call: a newer one of its user or its own redemption spends it |
| AccountRows.UserRows | backend/app/auth/service.py:240-893 | what every account is after every successful call, field by field |
| AccountRows.OthersAreLeftAlone | backend/app/auth/service.py:76-893 | no call changes a user, session, verification or reset row of any account but the one it acts for |
| AccountNewRows.NewSession | backend/app/auth/service.py:102-138 | a session that appears was started by a sign-in, for the account with the address or the Google identity, with the token handed out and its full lifetime |
| AccountNewRows.SignInStartsSession | backend/app/auth/service.py:316-467 | conversely every successful sign-in adds its session |
| AccountNewRows.NewUser | backend/app/auth/service.py:240-442 | an account that appears was registered, or comes from a first sign-in with Google that found neither identity nor address; with exactly these fields |
| AccountNewRows.AccountsAreMade | backend/app/auth/service.py:240-442 | conversely whoever registers, and whoever comes through Google unknown, gets an account |
| AccountNewRows.NewVerification | backend/app/auth/service.py:764-811 | a verification token appears at registration, or when asked for by address for an account that is not verified, and lasts a day |
| AccountNewRows.VerificationsAreIssued | backend/app/auth/service.py:764-811 | conversely it is issued in exactly these cases |
| AccountNewRows.NewReset | backend/app/auth/service.py:842-875 | a reset token appears when asked for the address of a live account, and lasts an hour |
| AccountNewRows.ResetsAreIssued | backend/app/auth/service.py:842-875 | conversely it is issued for every known address |
| WorkspaceRows.RegisterFounds | backend/app/auth/service.py:142-312 | a registration founds a personal workspace, a business one a second, owned by the new account alone, under slugs no organization has |
| WorkspaceRows.LoginLinks | backend/app/auth/service.py:335-357 | a login links the pending memberships of its address to the user and changes no other |
| WorkspaceRows.GoogleLinks | backend/app/auth/service.py:399-467 | with Google the pending memberships of the account's own address are linked, and a new account also gets its personal workspace |
| WorkspaceRows.UpgradeConverts | backend/app/auth/service.py:191-238 | an upgrade turns the caller's personal workspace into a business one under the given name, My Team by default, and changes nothing else |
| WorkspaceRows.DeletionRemoves | backend/app/auth/service.py:681-712 | deleting an account deletes exactly the live organizations in which its address is an owner |
| WorkspaceRows.InvitationAppends | backend/app/api/v1/organizations.py:358-396 | an invitation appends one membership, linked at once if the address has an account |
| WorkspaceRows.WorkspacesLeftAlone | backend/app/auth/service.py:76-893 | every other call leaves organizations and memberships alone |
| AccountAnswers.CurrentUserAnswer | backend/app/auth/dependencies.py:80-103 | 401 without an active session of a live user, 403 for a disabled one, otherwise the user |
| AccountAnswers.CallerAnswers | backend/app/auth/service.py:496-630 | for a signed-in user, when unlinking Google, changing and setting the password succeed and with which error they fail |
| AccountAnswers.DeleteAnswer | backend/app/auth/service.py:681-712 | deletion fails first for a wrong password, then for a shared workspace the address owns, and else succeeds |
| AccountAnswers.UpgradeAnswer | backend/app/auth/service.py:191-238 | the upgrade works exactly for who has a live personal workspace |
| AccountAnswers.LoginAnswer | backend/app/auth/service.py:316-357 | an unknown address looks like a wrong password; then a disabled account is refused, then an unverified one |
| AccountAnswers.RefreshAnswer | backend/app/auth/service.py:716-753 | accepted exactly for the token of an active session whose owner is live and not disabled, and a fresh new token |
| AccountAnswers.VerifyAnswer | backend/app/auth/service.py:813-838 | accepted exactly for a redeemable token of a live account; one already verified is refused by name |
| AccountAnswers.ResetAnswer | backend/app/auth/service.py:877-893 | accepted exactly for a redeemable token of a live account |
| AccountAnswers.RequestAnswers | backend/app/auth/service.py:796-875 | with fresh identifiers asking succeeds for every address, and the link is made only for a known one |
| AccountAnswers.InviteAnswer | backend/app/api/v1/organizations.py:358-396 | personal workspaces take no members and nobody is invited twice |
| AccountAnswers.Replies | backend/app/auth/service.py:240-515 | which account or token pair a successful call hands back |
| AccountMoves.RefreshMoves | backend/app/auth/service.py:716-741 | a refresh rotates exactly the active session that holds the token |
| AccountMoves.GoogleAccountMoves | backend/app/auth/service.py:399-435 | resolving a Google identity writes at most one user and ends with that identity on a live user |
| AccountSafety.CallWorkspaces | backend/app/auth/service.py:142-238 | workspaces stay sound, and only an address new to the system gains a personal one |
| AccountSafety.NextKeepsInv | backend/app/auth/service.py:76-893 | every call keeps the invariant of all six tables |
| AccountSafety.ReachableIsSound | backend/app/auth/service.py:76-893 | every database reached from the empty one satisfies it |
| AccountRuns.AccountsStayDistinct | backend/app/auth/service.py:316-515 | in every reachable state live users differ in address and Google identity and each has a password or a Google identity |
| AccountRuns.OnePersonalWorkspace | backend/app/auth/service.py:176-189 | in every reachable state a personal workspace has its owner as only member and an address has at most one |
| AccountRuns.OneRedeemableToken | backend/app/auth/service.py:764-870 | in every reachable state a user has at most one redeemable verification token and one redeemable reset token |
| AccountRuns.RefreshTokenWorksOnce | backend/app/auth/service.py:716-753 | a refresh token once accepted is refused in every later state of every run |
| AccountRuns.InactiveForever | backend/app/repositories/session_repository.py:24-115 | revoked or expired is absorbing over every run with a clock that does not go back |
| AccountRuns.ResetEndsSessions | backend/app/auth/service.py:877-893 | no session the user had at the reset is ever active again |
| AccountRuns.DeletionEndsSessions | backend/app/auth/service.py:711-712 | no session the user had at the deletion is ever active again |
| AccountRuns.PasswordChangeEndsOthers | backend/app/auth/service.py:585-604 | no other session of the user is ever active again, and the calling one is untouched |
| AccountRuns.LogoutEndsSession | backend/app/auth/service.py:519-521 | the session is never active again |
| AccountRuns.VerificationWorksOnce | backend/app/auth/service.py:813-838 | a redeemed verification token is refused in every later state of every run |
| AccountRuns.ResetWorksOnce | backend/app/auth/service.py:877-893 | a redeemed reset token is refused in every later state of every run |
| AccountFacts.NewSessionIsEntitled | backend/app/auth/service.py:316-467 | whatever the call, a session starts only for a live, enabled user who is verified or linked to Google |
| AccountFacts.SecondUpgradeFails | backend/app/auth/service.py:191-226 | once upgraded, every later upgrade by that user fails, whatever runs in between |
| AccountFacts.RegisterGivesPersonal | backend/app/auth/service.py:240-300 | a registered address has exactly the personal workspace that was created for it |
| AccountFacts.AddressRegistersOnce | backend/app/auth/service.py:282-292 | in every later state a second registration of an address fails: with EmailAlreadyRegistered while the account lives, by the database afterwards |
| AccountFacts.RegistrationSucceedsIff | backend/app/auth/service.py:240-312 | with unused identifiers it succeeds exactly when no row, live or deleted, has the address and no chosen slug is that of a deleted workspace |
| AccountFacts.DeletionIsConfined | backend/app/auth/service.py:681-712 | deletes exactly the workspaces the user owns, none of which had another member |
| AccountPaths.NoCallIsAmbiguous | backend/app/repositories/user_repository.py:31-52 | in reachable states scalar_one_or_none never finds two rows |
| AccountPaths.RightPasswordLogsIn | backend/app/auth/service.py:335-357 | login succeeds exactly for the right password of an enabled, verified account, and starts exactly one session |
| AccountPaths.RegisterVerifyLogin | backend/app/auth/service.py:240-357 | after registration login is refused, the emailed token verifies within a day, and then login succeeds |
| AccountPaths.ResetThenLogin | backend/app/auth/service.py:842-893 | after a reset the new password logs in and no other does |
| AccountPaths.ActiveTokenRefreshes | backend/app/auth/service.py:716-753 | the token of an active session is accepted exactly while its user is live and enabled, and keeps the session's identity |
| AccountPaths.RefreshChain | backend/app/auth/service.py:732-741 | the rotated token is accepted until it expires, and the old one is refused |
| AccountEffects.KnownIdentity | backend/app/auth/service.py:385-399 | a linked Google identity leads to its account whatever address it shows |
| AccountEffects.LinkedThenFound | backend/app/auth/service.py:469-494 | after linking, signing in with Google reaches the linked account |
| AccountEffects.GoogleNeverDuplicates | backend/app/auth/service.py:402-421 | an address with an account never gets a second one through Google; an unknown identity is linked to it |
| AccountEffects.UnlinkFreesIdentity | backend/app/auth/service.py:496-515 | unlinking needs a password and lets any other account take the identity |
| AccountEffects.SetThenLogin | backend/app/auth/service.py:608-630 | only an account without a password gets one this way, and then exactly that password signs in |
| AccountEffects.ChangeThenLogin | backend/app/auth/service.py:585-604 | a change takes the current password, and then exactly the new one signs in |
| AccountEffects.RequestThenReset | backend/app/auth/service.py:842-893 | a reset token works for an hour and replaces every earlier one |
| AccountEffects.UpgradeIsInPlace | backend/app/auth/service.py:191-226 | the same organization with the same slug and members stops being personal, and no other changes |
| GoogleIdentities.GoogleSignInSucceedsIff | backend/app/auth/service.py:369-467 | with unused identifiers it succeeds exactly for an enabled linked account; else for an enabled account with the address when no deleted row holds the identity; else when no row, live or deleted, has the identity or the address and the slug is not that of a deleted workspace |
| GoogleIdentities.DisabledIsRefused | backend/app/auth/service.py:399-450 | a disabled account is refused as disabled, whether found by its identity or by its address |
| GoogleIdentities.LinkingSucceedsIff | backend/app/auth/service.py:469-494 | a signed-in user links an identity exactly when no other row, live or deleted, holds it; only a live holder is named |
| GoogleIdentities.DeletedIdentityIsBurnt | backend/app/models/user.py:162-168 | in every later state the identity of a deleted account neither signs in nor can be linked |
| DdlSplit.CutPieces | backend/app/dbtools/ddl_parser.py:91-105 | the character loop produces the pieces of the specification |
| DdlSplit.Split | backend/app/dbtools/ddl_parser.py:88-106 | trims the pieces and drops the empty ones |
| DdlSplit.SplitLosesNothing | backend/app/dbtools/ddl_parser.py:91-105 | the untrimmed pieces joined again are the body, up to a separator at its very end |
| DdlSplit.PiecesAreUnsplit | backend/app/dbtools/ddl_parser.py:94-105 | no piece holds a top-level separator and every piece but the last ends at depth 0 |
| DdlSplit.UnsplitMeaning | backend/app/dbtools/ddl_parser.py:94-105 | a piece without a top-level separator is one in which every comma stands after a different number of opening than closing parentheses |
| DdlSplit.CleanedMeaning | backend/app/dbtools/ddl_parser.py:106 | the result keeps exactly the pieces that are not blank, trimmed and in order |
| DdlSplit.SplitUndoesJoin | backend/app/dbtools/ddl_parser.py:88-106 | splitting joined trimmed definitions gives back the list |
| DdlParser.ParseCreateTableBody | backend/app/dbtools/ddl_parser.py:109-136 | the loop over the definitions yields the table of the specification, numbering anonymous constraints |
| DdlParser.ParseDdl | backend/app/dbtools/ddl_parser.py:139-238 | the statement loop is the fold of the specification and reports exactly the unrecognized statements |
| DdlNames.StatementNames | backend/app/dbtools/ddl_parser.py:147-238 | for every statement and every name of a table, column, index, constraint, enum or value: exactly when the schema has it afterwards, from what it had before and the statement |
| DdlNames.CreateTableNames | backend/app/dbtools/ddl_parser.py:109-136 | after CREATE TABLE the table has exactly the columns and constraints its body defines, and no index |
| DdlNames.ScriptNames | backend/app/dbtools/ddl_parser.py:139-238 | the schema of a script has exactly the names its statements leave, without the bookkeeping table |
| DdlNames.BodyConstraints | backend/app/dbtools/ddl_parser.py:113-134 | a body names exactly the constraints of its definitions, an anonymous one by how many names precede it |
| DdlNames.BodyColumns | backend/app/dbtools/ddl_parser.py:113-134 | a body defines exactly its columns, the last definition of a name standing |
| DdlNames.AnonymousAreNumbered | backend/app/dbtools/ddl_parser.py:113-134 | anonymous constraints alone are numbered from 0 |
| DdlNames.StatementColumns | backend/app/dbtools/ddl_parser.py:186-225 | what a column, its nullability included, is after a statement |
| DdlNames.ValuesDoNotRepeat | backend/app/dbtools/ddl_parser.py:166-171 | adding a value that an enum has already changes nothing, so no enum repeats a value unless a CREATE TYPE does |
| DdlNames.UnparsedMeaning | backend/app/dbtools/ddl_parser.py:151-235 | a text is reported exactly when some statement with it was not recognized |
| DdlParser.ExecConcat | backend/app/dbtools/ddl_parser.py:147-238 | interpreting A;B is interpreting B from the state after A, and the reports concatenate |
| DdlParser.MigrationGrows | backend/app/dbtools/ddl_parser.py:139-238 | a script that only creates and adds, never re-creating, lets the compared names only grow |
| DdlParser.NullabilityIsInvisible | backend/app/dbtools/ddl_parser.py:218-225 | setting NOT NULL changes no compared name |
| SchemaDiff.CompareTables | backend/app/dbtools/diff.py:21-41 | the table loop yields the unclean table diffs in name order |
| SchemaDiff.CompareEnums | backend/app/dbtools/diff.py:49-58 | the enum loop yields the unclean enum diffs in name order |
| SchemaDiff.DiffSchemas | backend/app/dbtools/diff.py:15-68 | the loops compute the diff of the specification |
| SchemaDiff.DiffIsExact | backend/app/dbtools/diff.py:15-68 | a table, column, index, constraint, enum or value is listed as missing or extra exactly when one side has it and the other has not |
| PlanOrder.ValuesKeepOrder | backend/app/dbtools/diff.py:49-58 | the values an enum lists are exactly those of its declaration that the other side lacks, in the order of the declaration |
| PlanOrder.DiffIsSorted | backend/app/dbtools/diff.py:15-68 | every list of names in a diff ascends as Python sorts strings, and so do its tables and its enums |
| SchemaDiff.DiffIsPatch | backend/app/dbtools/diff.py:15-68 | removing the extras from live and adding what is missing yields exactly the expected names |
| SchemaDiff.DiffIsSymmetric | backend/app/dbtools/diff.py:15-68 | exchanging live and expected exchanges missing and extra everywhere |
| SchemaDiff.TotalMismatches | backend/app/dbtools/models.py:121-136 | the loops add up every listed object |
| SchemaDiff.ExactIffNoMismatch | backend/app/dbtools/models.py:107-136 | is_exact_match holds exactly when total_mismatches is 0, for every diff |
| SchemaDiff.MatchIffSameNames | backend/app/dbtools/models.py:107-119 | is_exact_match holds exactly when both schemas have the same names |
| RepairPlan.RepairPlanFromDiff | backend/app/dbtools/recommend.py:75-172 | the loops produce the plan of the specification, in order |
| RepairPlan.PlanIsExact | backend/app/dbtools/recommend.py:75-172 | a step is in the plan exactly when the two schemas call for it: missing objects, and extra tables, columns and enum values |
| PlanOrder.PlanIsOrdered | backend/app/dbtools/recommend.py:75-172 | the steps of every plan stand by section, then by table or enum, then by kind, then by name |
| RepairPlan.OneStepEach | backend/app/dbtools/recommend.py:75-172 | no object gets two steps |
| RepairPlan.PlanLength | backend/app/dbtools/recommend.py:75-172 | the plan is shorter than total_mismatches by exactly the extra indexes, extra constraints and extra enums |
| Recommend.ScanRevisions | backend/app/dbtools/recommend.py:59-72 | every revision is scanned in order, with a diff or with its unrecognized statements |
| Recommend.ScanMeaning | backend/app/dbtools/recommend.py:59-72 | a revision is diffed exactly when all its statements were understood, and otherwise the others are its error |
| Recommend.BuildRecommendation | backend/app/dbtools/recommend.py:175-239 | the earliest exact match, else the earliest revision with the fewest mismatches and its plan, else nothing |
| Recommend.RecommendationMeaning | backend/app/dbtools/recommend.py:175-239 | the first revision with exactly the live names is stamped; without one the revision with the fewest mismatches is repaired, the first if there are several; nothing exactly when no revision could be read |
| Recommend.MatchMeaning | backend/app/dbtools/recommend.py:175-181 | a match is a parseable revision with exactly the live names |
| Recommend.OneMatchIffNoTwins | backend/app/dbtools/recommend.py:3-15 | over any revisions at most one matches, for every live schema, exactly when no two parseable ones expect the same names |
| Recommend.TheMatchIsRecommended | backend/app/dbtools/recommend.py:175-196 | a matching revision is the one to stamp exactly when no earlier revision expects the same names |
| Recommend.NullabilityMigrationIsAmbiguous | backend/app/dbtools/recommend.py:3-15 | a migration that only sets NOT NULL matches whenever its predecessor does |
| RevisionChain.LastingMigrationsHaveNoTwins | backend/app/dbtools/recommend.py:3-15 | in a chain of any statements no two revisions expect the same names if every migration after the first adds a name no later one drops or drops a name no later one re-creates |
| RevisionChain.LastingChainStampsItsMatch | backend/app/dbtools/recommend.py:175-196 | in such a chain the matching revision is the one to stamp |
| RevisionChain.DroppingIsEnough | backend/migrations/versions/20260707_0412_cf91180d80ff_ep20_drop_duplicate_external_id_columns.py:78-87 | a migration that only drops separates its predecessor from every later revision, as long as what it drops stays away |
| RevisionChain.GrowthDropsNothing | backend/app/dbtools/recommend.py:3-15 | along a chain of additive migrations the expected names only grow |
| RevisionChain.GrowingChainMatchesOnceIff | backend/app/dbtools/recommend.py:3-15 | in a chain that only grows the match is unique exactly when every migration after the first adds a name |
| RevisionChain.IdleMigrationHasTwin | backend/app/dbtools/recommend.py:3-15 | a migration that neither adds nor drops a name cannot be told from its predecessor |
| RevisionChain.AddingEachTimeIsNotEnough | backend/app/dbtools/recommend.py:3-15 | a chain in which every migration adds a name and yet two revisions expect the same names |
| Calendar.NextDayOrdinal | backend/app/budgets/period.py:27-28 | the next day of the calendar has the next day number |
| Calendar.OrdinalIsMonotone | backend/app/budgets/period.py:69-81 | day numbers order dates as the calendar does |
| Calendar.FromOrdinalInverse | backend/app/budgets/period.py:44-48 | day numbers and dates are inverse to each other |
| Calendar.NextDayMeaning | backend/app/budgets/period.py:31-33 | the next day rolls month and year over at their ends |
| Calendar.MonthLengths | backend/app/budgets/period.py:31-33 | the lengths of the months, leap years included |
| Calendar.Anchors | backend/app/budgets/period.py:44-48 | day numbers start at 0001-01-01, and 2024-01-01 is a Monday |
| Calendar.WeekdaysGoRound | backend/app/budgets/period.py:44-48 | from day to day the weekday moves on, after Sunday to Monday |
| BudgetPeriod.WeeklyOverflow | backend/app/budgets/period.py:44-48 | the window fails to resolve exactly for a weekly budget whose week runs past 9999-12-31 |
| BudgetPeriod.WindowBounds | backend/app/budgets/period.py:36-64 | where the window of a recurring budget begins and ends; the day itself lies in it |
| BudgetPeriod.CustomWindow | backend/app/budgets/period.py:55-64 | a custom window is exactly the configured one, and today alone when an end is missing |
| BudgetPeriod.DaysAreCounted | backend/app/budgets/period.py:69-81 | in a window that is not backwards the elapsed days are those from its start to today and the remaining ones those after today, none beyond either end |
| BudgetPeriod.BackwardsWindow | backend/app/budgets/period.py:69-81 | what a backwards custom window counts |
| BudgetPeriod.WindowIsStable | backend/app/budgets/period.py:36-64 | every day of a window resolves to that same window |
| BudgetPeriod.NextWindowStarts | backend/app/budgets/period.py:36-64 | the day after a window starts the next one |
| BudgetPeriod.KeyNamesWindow | backend/app/budgets/period.py:84-91 | two days share a period key exactly when they share a window |
| BudgetPeriod.KeyNamesCustomWindow | backend/app/budgets/period.py:84-91 | custom windows share a key exactly when they have the same bounds |
| BudgetPeriod.IsoFormatReads | backend/app/budgets/period.py:84-91 | an ISO date reads year, month and day in four, two and two digits |
| BudgetPeriod.DaysAddUp | backend/app/budgets/period.py:69-81 | elapsed and remaining days add up to the window length exactly when the window is not backwards by more than a day, or has begun |
| BudgetPeriod.ForecastIsExact | backend/app/budgets/service.py:255-284 | spending the allowance on every remaining day uses up the budget exactly |
| Alerts.AlertService.Fire | backend/app/alerts/dispatcher.py:51-118 | a suppressed event changes nothing; any other is folded into the open alert with its key or starts one |
| Alerts.AlertService.Move | backend/app/api/v1/alerts.py:189-275 | acknowledge, resolve, dismiss and reopen are allowed from exactly the stated statuses |
| Alerts.FindOpen | backend/app/repositories/alert_repository.py:52-63 | the first open alert of the organization with the key, or none |
| Alerts.FireMeaning | backend/app/alerts/dispatcher.py:83-112 | a first occurrence appends an open alert with its title, message, metadata and both times; a further one counts, renews message and time, merges metadata and keeps the rest |
| Alerts.MoveMeaning | backend/app/api/v1/alerts.py:189-275 | from which status each move is allowed, and that it changes this alert's status and nothing else |
| Alerts.OneOpenPerKey | backend/app/alerts/dispatcher.py:72-118 | over runs that never reopen, at most one open alert per organization and key |
| Alerts.ReopenKeepsOneOpen | backend/app/api/v1/alerts.py:264-275 | reopening keeps that exactly when the key has no open alert |
| Alerts.ReopenCanDuplicate | backend/app/api/v1/alerts.py:264-275 | a run of four steps that ends with two open alerts of one key |
| Alerts.OccurrencesAddUp | backend/app/alerts/dispatcher.py:83-118 | over every run the occurrence counts of a key sum to its unsuppressed fires |
| BudgetAlerts.KeysAreDistinct | backend/app/alerts/dedup.py:32-73 | two firings share a key exactly when budget, period and threshold value are the same |
| BudgetAlerts.CrossedFacts | backend/app/budgets/service.py:107-153 | the crossed thresholds, lowest first, are exactly those not above the percentage |
| BudgetAlerts.EvaluationFires | backend/app/budgets/service.py:107-242 | one occurrence per configured threshold t with 100 * spend >= t * amount (for an amount of at most 0, with t <= 0), lowest first, as exceeded from 100 percent on, with these texts |
| BudgetAlerts.EvaluationsOneByOne | backend/app/budgets/service.py:155-191 | the budgets fire one after the other, and one that cannot be resolved stops all |
| BudgetAlerts.DeliveredInOrder | backend/app/budgets/service.py:193-242 | the alerts see exactly the occurrences whose firing is neither suppressed nor fails, in order |
| BudgetAlerts.EvaluateAndAlert | backend/app/budgets/service.py:165-242 | evaluates everything, then fires one occurrence per crossed threshold in order; suppressed ones and ones whose firing fails are skipped |
| Reevaluation.NewAlerts | backend/app/budgets/service.py:193-242 | a pass over any alerts creates exactly one per distinct key it fires that has none open |
| Reevaluation.NewAlertsOfKey | backend/app/alerts/dispatcher.py:83-112 | key by key: one new alert when it is fired with none open, otherwise none |
| Reevaluation.OpenAfter | backend/app/alerts/dispatcher.py:83-112 | afterwards exactly the keys that were open or fired have an open alert |
| Reevaluation.AddsNothingIff | backend/app/budgets/service.py:180-186 | a pass creates no alert exactly when every key it fires has an open one |
| Reevaluation.ReevaluationAddsExactly | backend/app/budgets/service.py:165-242 | with the same spend in the same period a second pass creates alerts for exactly the keys whose first firing was suppressed or failed and that had none open; none when every first firing was taken |
| Reevaluation.GrownSpendAlerts | backend/app/budgets/service.py:165-242 | when the spend has grown in between, one alert for each threshold newly crossed that had none open |
| Reevaluation.ClosedAlertFiresAgain | backend/app/budgets/service.py:180-186 | after an alert is acknowledged, resolved or dismissed the next pass creates exactly one alert more if it fires that key, and otherwise as many as before |
| PricingVersions.OverlapMeansSharedDate | backend/app/pricing/validator.py:121-145 | for non-empty closed or open-ended ranges the test is true exactly when a date is shared |
| PricingVersions.ValidateNoOverlap | backend/app/pricing/validator.py:108-145 | the loop returns the first live version that shares a date, or accepts |
| PricingVersions.ModelPricingRepository.Create | backend/app/api/v1/pricing.py:201-260 | the record enters exactly when both validations and the constraints pass |
| PricingVersions.VersionsStayDisjoint | backend/app/pricing/validator.py:108-145 | whatever is inserted, deleted or deactivated, live versions of a model never share a date |
| PricingVersions.LookupIsUnambiguous | backend/app/repositories/model_pricing_repository.py:50-68 | after any run at most one version is a candidate on a date, so the ordering decides nothing |
| PricingVersions.LookupMeaning | backend/app/repositories/model_pricing_repository.py:50-68 | the lookup finds an active version that is not deleted and in force on the date, the one that started last, and nothing exactly when there is none |
| PricingVersions.AcceptedIff | backend/app/pricing/validator.py:31-145 | a new price enters exactly when it is properly formed, its key and version are new and no live version of the model is in force on one of its dates |
| PricingVersions.StoredPrices | backend/app/pricing/validator.py:58-90 | no stored price is negative or unnamed, and each ends after it starts |
| PricingVersions.StoredVersionsDiffer | backend/app/models/model_pricing.py:127-133 | no two stored prices share a primary key, or provider, model and version |
| PricingVersions.ApplyMeaning | backend/app/repositories/base_repository.py:161-172 | deleting or switching a price touches that one record and of it only that mark |
| PricingEngine.QuantizeIsNearest | backend/app/pricing/engine.py:96-111 | quantizing goes to the nearest multiple of 1e-8, ties away from zero, for costs of either sign |
| PricingEngine.PartsAreRounded | backend/app/pricing/engine.py:96-121 | each part is tokens times its own price, rounded half up to 1e-8; there is a cached part exactly when both its count and its price are given |
| PricingEngine.TotalIsSumOfParts | backend/app/pricing/engine.py:96-111 | the final quantize changes nothing |
| PricingEngine.TotalIsClose | backend/app/pricing/engine.py:96-111 | within 1.5e-8 of the exact cost, 1e-8 without a cached part |
| PricingEngine.BoundsAreTight | backend/app/pricing/engine.py:96-111 | both bounds are reached |
| PricingEngine.TotalIsMonotone | backend/app/pricing/engine.py:75-121 | more tokens of any kind never cost less, a cached count that appears included |
| PricingEngine.BatchIsClose | backend/app/pricing/engine.py:96-111 | n events are off by at most n times 1.5e-8 |
| Aggregation.AggregationService.BuildDailySummaries | backend/app/analytics/aggregation.py:35-132 | one upsert per group of the day, with the sums of its live records |
| Aggregation.AggregationService.RebuildRange | backend/app/analytics/aggregation.py:134-164 | day by day; an error rolls everything back |
| Aggregation.UpsertSucceeds | backend/app/repositories/daily_cost_summary_repository.py:24-96 | an upsert fails exactly when a NULL project already has a live summary |
| Aggregation.RebuildSucceeds | backend/app/models/daily_cost_summary.py:105-114 | a rebuild succeeds exactly when no NULL-project group of the range has a live summary already |
| Aggregation.RebuildIsExact | backend/app/analytics/aggregation.py:35-164 | every group with live records has a live summary with exactly its totals, unless that summary was soft-deleted; everything else is unchanged |
| Aggregation.ColumnsAreSums | backend/app/analytics/aggregation.py:53-95 | each column of a summary is the sum of its own measure over the live records of the group, of which there is one |
| Aggregation.CachedColumnsAreSums | backend/app/analytics/aggregation.py:53-95 | so are the columns that may be NULL, which are NULL exactly when every record's is |
| Aggregation.SecondRebuildIsIdempotent | backend/app/analytics/aggregation.py:134-164 | with a project on every record a second rebuild changes no value |
| Aggregation.SecondRebuildFails | backend/app/models/daily_cost_summary.py:105-114 | with a record that names no project the second rebuild fails |
| Aggregation.RebuildConserves | backend/app/analytics/aggregation.py:53-132 | the rebuilt summaries of a currency add up, column by column, to its live records in the range |
| SummaryTotals.RebuiltTableTotal | backend/app/analytics/aggregation.py:35-164 | for every table: the live summaries of the range after a rebuild, plus what soft-deleted ones hide, are the live records plus the summaries of groups that lost their records |
| SummaryTotals.ConservesIffCancelling | backend/app/analytics/aggregation.py:35-164 | so the rebuilt table adds up to the records exactly when these two parts cancel |
| SummaryTotals.RebuiltTableConserves | backend/app/analytics/aggregation.py:35-164 | and it does when every live summary of the range has a live record and no group with records has a soft-deleted summary |
| SummaryTotals.MovedRecordIsStillCounted | backend/app/repositories/usage_cost_record_repository.py:36-92 | a record that recalculation moves to another day or currency is still counted where it was, however often that range is rebuilt |
| RateLimit.MemoryBackend.CountInWindow | backend/app/auth/rate_limit.py:102-105 | prunes the entries and counts exactly those of the window |
| RateLimit.LoginRateLimiter.Check | backend/app/auth/rate_limit.py:179-203 | the decision and the new memory of the specification |
| RateLimit.LoginRateLimiter.RecordFailure | backend/app/auth/rate_limit.py:205-224 | counts the failure and locks from the limit on |
| RateLimit.LoginRateLimiter.RecordSuccess | backend/app/auth/rate_limit.py:226-228 | clears the streak |
| RateLimit.LimitedEverywhere | backend/app/auth/rate_limit.py:102-108 | if each entry was at most the max-th of its own window, no window holds more than max |
| RateLimit.ExpiredLockIsDropped | backend/app/auth/rate_limit.py:110-115 | a check drops the lock of its account exactly when it has expired, and no other |
| RateLimit.LoginWindowBound | backend/app/auth/rate_limit.py:179-203 | in every window an address is let through at most the configured number of times |
| Lockout.LoginAllowedIff | backend/app/auth/rate_limit.py:179-203 | in every run a login is let through exactly when the lock is over and fewer than the maximum were let through from its address in the window before it |
| Lockout.CounterIsStreak | backend/app/auth/rate_limit.py:121-136 | in every run the failure counter is the number of failures since the last success, none further apart than the counter lives |
| Lockout.LockGrows | backend/app/auth/rate_limit.py:205-224 | the lock never shortens as the streak grows and never exceeds the cap |
| Lockout.StreakLocks | backend/app/auth/rate_limit.py:205-224 | in every run a failure that completes a streak of n locks until its time plus min(base doubled n - max_failures times, cap), and below the limit changes no lock |
| Lockout.FreshStreakLocks | backend/app/auth/rate_limit.py:205-228 | after a success and n failures in a row the lock is that one |
| Lockout.LockIsDoubled | backend/app/auth/rate_limit.py:212-217 | the first lock is min(base, cap) and each further failure doubles it up to the cap |
| Lockout.DefaultLocks | backend/app/auth/rate_limit.py:205-224 | with the defaults 30, 60, 120, 240, 480 and then 900 seconds |
| Lockout.LockedExactlyUntilThen | backend/app/auth/rate_limit.py:179-224 | after every run a check is refused exactly until the lock of the last locking failure ends, and waiting retry_after leaves less than a second |
| Lockout.LockHoldsIff | backend/app/auth/rate_limit.py:179-228 | a lock is in force at every moment until its end exactly when no later failure leaves a shorter one before |
| Lockout.ShorterOnlyAfterRestart | backend/app/auth/rate_limit.py:205-228 | a failure shortens a lock only if the streak was restarted since the lock was set |
| Lockout.UnlockedFailureNeverShortens | backend/app/auth/rate_limit.py:205-224 | failures recorded while no lock is in force never shorten it |
| Lockout.RestartedStreakSetsShortestLock | backend/app/auth/rate_limit.py:205-228 | a success and a fresh streak of failures set the shortest lock, whatever lock there was |
| Lockout.SuccessResetsStreak | backend/app/auth/rate_limit.py:205-228 | after a success the next failures, at whatever times within the life of the counter, count from one |
| SendLimits.EmailRateLimiter.CheckAndRecord | backend/app/auth/rate_limit.py:282-300 | records only what it allows |
| SendLimits.MailRunIsPerKey | backend/app/auth/rate_limit.py:282-300 | in a run that interleaves scopes and keys each window key sees its own attempts only |
| SendLimits.EmailWindowBound | backend/app/auth/rate_limit.py:282-300 | in every run and every window at most the configured number of mails per scope and key |
| SendLimits.MailAllowedIff | backend/app/auth/rate_limit.py:282-300 | a mail is allowed exactly while fewer than the maximum were allowed for its key in the window before it |
| SendLimits.ConnectionRateLimiter.Check | backend/app/realtime/rate_limit.py:45-68 | records every attempt and allows up to the maximum; a missing address is always allowed |
| SendLimits.ConnectionRunIsPerAddress | backend/app/realtime/rate_limit.py:31-68 | in a run that interleaves addresses each sees its own attempts only |
| SendLimits.ConnectionWindowBound | backend/app/realtime/rate_limit.py:31-68 | in every run and every window at most the configured number of connections per address |
| SendLimits.ConnectionAllowedIff | backend/app/realtime/rate_limit.py:31-68 | an attempt is allowed exactly when, refused attempts counted too, at most the maximum of its address fall into its window |
| HttpRetry.Request | backend/app/http/client.py:302-428 | at most max(1, max_attempts) calls, each sleep within the cap, and the result or error of the last attempt |
| HttpRetry.RetriedStatuses | backend/app/http/client.py:145-204 | below the attempt limit, and only there, transport errors are retried and exactly the statuses 408, 429, 500, 502, 503 and 504 |
| HttpRetry.OutcomeMeaning | backend/app/http/client.py:145-204 | which status gives which error, and when a call succeeds |
| HttpRetry.RetryAfterWins | backend/app/http/client.py:379-414 | a Retry-After of a 429, capped, wins over the backoff |
| HttpRetry.BackoffMeaning | backend/app/http/retry.py:35-47 | the delay of each strategy: fixed, times the attempt, multiplied once per earlier attempt, or that times (1 + random) / 2; never beyond the cap |
| HttpRetry.TotalSleep | backend/app/http/client.py:312-428 | all sleeps together are at most (max_attempts - 1) times the maximal delay |
| HttpRetry.DelaysGrow | backend/app/http/retry.py:35-47 | without jitter the waits never shrink |
| HttpRetry.JitterStaysInBand | backend/app/http/retry.py:35-47 | jitter waits between half of the capped delay and all of it |
| Slug.SlugifyIsShaped | backend/app/auth/slug.py:18-25 | a slug has only letters, digits and single inner hyphens |
| Slug.SlugifyIsIdempotent | backend/app/auth/slug.py:18-25 | slugifying a slug changes nothing |
| Slug.SlugKeepsWords | backend/app/auth/slug.py:18-25 | a slug has exactly the words of the text, in order; a text without any gets the fallback |
| Slug.CandidatesDiffer | backend/app/auth/slug.py:34-38 | the candidates are pairwise distinct |
| Slug.CandidateMeaning | backend/app/auth/slug.py:34-38 | the first candidate is the slug, the n-th the slug, a hyphen and the number n |
| Slug.ProbesAreBounded | backend/app/auth/slug.py:28-39 | among taken candidates there are at most as many as taken slugs |
| Slug.UniqueSlug | backend/app/auth/slug.py:28-39 | terminates after at most one probe more than there are taken slugs, with the first free candidate |

## Left out

- HTTP routes, middleware, permissions, logging and metrics: wiring around the modelled services.
- JWT and Argon2: an access token is represented by its session, a password hash by the password it verifies.
- OAuth exchange, email delivery and webhooks: network I/O.
- Redis as the store of the limiters, and failover between Redis and memory during a run.
- Tables of the account service: `deleted_by`, `updated_at`, profile fields, onboarding and preferences are not modelled, and no session or token row is ever deleted.
- Organizations that are suspended or archived, memberships that are removed or change role, and transfers of ownership; inviting a member and changing an account's status are modelled as calls of their own.
- The children of a deleted workspace: `CascadeDelete` models them, the account state machine only the workspace itself.
- AuthService.AuthService.Register: delivery of the verification mail is not modelled; the token is returned by no call and known to whoever reads the mail.
- ConnectionManager.ConnectionManager.Register: the registry holds the connection as a value, so the aliasing of the returned object, its kind, principal, heartbeat and duration are not modelled.
- The asynchronous waiting of `receive` and the dispatch loop: one turn of the loop is one step.
- Events.ParseStr: does not model every leniency of Python's `int()` inside `uuid.UUID`, such as underscores and signs.
- DDL statements are classified by regular expressions in the source; the model starts from the classified statement. `_split_statements`, the expected and live schema readers and the HTML report are not modelled.
- Texts of repair steps, of recommendations and of validation errors.
- BudgetAlerts.EvaluateAndAlert: a firing that fails is taken to leave the alerts alone; whether it does, and whether the session can go on, is up to the database. Titles, messages and metadata are shortened.
- Pagination.Repository.Select: the query as the database evaluates it at one moment; isolation between concurrent transactions is not modelled.
- Alert severity, conditions, quiet hours and publication; the scope filter and the display status of a budget.
- BudgetPeriod.ForecastIsExact: exact arithmetic; the rounding of Decimal division is not modelled.
- PricingEngine.TotalIsSumOfParts: products that need more than the 28 digits of the Decimal context are not modelled.
- Numeric overflow of database columns and the order in which GROUP BY yields groups.
- HttpRetry.Request: floating-point rounding, infinities and NaN in delays are not modelled.
- Slug.SlugKeepsWords: lower-casing is that of ASCII letters.
- Dashboards, monitoring agents and the web applications.
