# Accounts, sign-out fences, provisioning and their guards, verified in Dafny

This project models the account server's hardest logic and proves what it is relied on for: which
writes may interleave and what they keep, what a finished sign-out guarantees, what a SCIM client may
do to an account, and that the small algorithms around sign-in (SHA-256 in the browser, the attempt
limiter, the proof-of-work puzzle, client attribution, orderly shutdown) do what they promise.
`dafny verify dfyconfig.toml` checks all of it.

## How it is built

* **One vocabulary for the store** (`Accounts.dfy`): the tables as maps, and every write that commits
  to the account table as one function `Apply` on them. `SqlStore.dfy` has the store's methods as
  sequences of SQL statements that answer row counts and may fail, each call proved equal to `Apply` or
  rolled back. `Transactions.dfy` interleaves the statements of any number of transactions under the row
  lock of an UPDATE and the advisory lock on the lowered name, and proves that each commit is one `Apply`;
  `NameRuns.dfy` says what that lock, and the SCIM handler's mutex above it, are worth over whole runs.
  A write whose name check was answered at another moment is `Land` (the same write without the name
  checks) or nothing; that is what the multi-step protocols take as a step, so they cover tables in which
  names already clash.
* **Protocols of several commits** (`SessionProtocol.dfy`, `LogoutFences.dfy`, `IdentityProtocol.dfy`,
  `GroupRuns.dfy`): processes that advance one committed statement or one clock reading at a time, in any
  interleaving, any number of each. A sign-in, logout, request, SCIM or group process may stop anywhere.
  Theorems are about every state of every run. In the session runs the clock never steps back; new session
  tokens and account ids have never been stored before.
* **Pure parts against the loops that compute them**: SCIM PUT, PATCH and GET (`ScimUser.dfy`), group
  operations (`Groups.dfy`), filters, paging and the user-name index (`Directory.dfy`), FIPS 180-4 with
  its constants checked root by root and the hand-written hash refined to it (`Fips180.dfy`,
  `FipsConstants.dfy`, `Sha256.dfy`), the limiter (`Limiter.dfy`, `LimiterSpans.dfy`), the puzzle
  and its spent set (`ProofOfWork.dfy`), addresses and prefixes (`ClientAddress.dfy`), the counter of
  detached requests and the bounded waits (`Shutdown.dfy`). `Basics.dfy` and `Powers.dfy` hold what these
  share.
* **What the steps mean, in the columns and fields a reader of the code sees**, without the functions the steps
  are written with: each account write and the sign-ins it allows or shuts out (`AccountWrites.dfy`), what a
  sign-in, a logout or a request ends in and why (`SessionOutcomes.dfy`), the same for SCIM and KyIdentity
  processes (`IdentityOutcomes.dfy`), each kind of SCIM PATCH operation (`ScimOperations.dfy`) and group PATCH
  operation (`GroupOperations.dfy`).

## Where the code promises less than it may seem to

Where a lemma is named, it gives a concrete witness, or says exactly when the property holds.

* The store's per-name lock does not by itself keep a clashing name from losing a holder and getting it back:
  that takes two SCIM renames of one account in flight (`NameRuns.Clash.HoldersRise`), and the store alone
  excludes it exactly for tables without a clash (`NoRunRisesExactlyWithoutClash`). The program cannot take
  such a run: the SCIM handler's mutex lets one rename run at a time, and then, from any table, no name ever
  rises (`MutexKeepsNamesFromRising`) and every commit is its write run alone, name checks included
  (`MutexMakesRunsSerial`).
* A fixed window admits up to 2 * limit - 1 attempts in a span as long as the window, and that bound is
  reached (`SpanIsBounded`, `BoundIsReached`). The clock is read before the lock is taken, though. While the
  table never fills, the bound holds exactly when readings reach the lock at most one nanosecond late
  (`LateByOneKeepsMost`), and for any lateness the most that can be allowed is known (`LateSpanIsBounded`,
  `LateBoundIsReached`). A full table is pruned by whoever comes next, and a window pruned on another key's
  reading is opened again by an earlier one: then both the bound and the invisibility of pruning hold exactly
  when calls come in the order of their readings (`OnlyOrderKeepsMost`, `OnlyOrderHidesPruning`), a wider bound
  holds for readings late by no more than the window (`PrunedSpanIsBounded`), and past that there is none
  (`BoundedWhileWithinTheWindow`).
* Where names clash, a userName filter answers by whichever row the lookup returns: it is exact exactly when
  one row holds the name or none that does is managed (`LookupIsExact`).
* Ten wrong passwords per window become 10 + m - 1 with m sign-ins of one account in flight, and that many
  do happen (`GuessesPerWindow`, `GuessBoundIsReached`).
* A solved challenge can buy a second attempt, exactly when the clock passes the expiry second between the
  check of the expiry and the spending of the salt (`OneAttemptPerChallenge`, `ExpiryTickBuysAgain`).
* Putting back what a SCIM GET answered changes the account when its display name is empty or its status is
  neither "active" nor "inactive" (`PrintedReadsBack`, an equivalence).
* A list of trusted proxies is refused for an entry that names a whole family, but two entries may name a
  half each (`TwoHalvesTrustEveryAddress`; `TrustsFamilyWithoutGap` says which lists do).
* A logout by subject does not extend the stored fence when that has an equal or later cutoff
  (`Relogin.SurvivesTheSecond`; `FenceReachesItsTerm` says when the fence reaches its term, and
  `SurvivorOutlastsTheTerm` what it then guarantees).

## Model

| member | source | states |
|---|---|---|
| Accounts.FoldingMeans | internal/store/sqlstore.go:159-181 | Two names fold alike exactly when they differ only in the case of ASCII letters |
| Accounts.WriteKeepsGrants | internal/store/sqlstore.go:317-348 | No account write leaves a session of a missing or inactive account, or leaves a session in place while its account's role, status, password hash or must-change flag changes; only opening a session adds one |
| Accounts.UnrevokedKeepsPrivileges | internal/store/sqlstore.go:286-348 | A row update that keeps the account's sessions keeps everything those sessions vouch for |
| Accounts.WriteKeepsIdentity | internal/store/sqlstore.go:286-359 | No write moves an account between providers except from scim to kysignon, changes a KyIdentity account's subject, drops the managed flag, or sets it on a local row; only a create makes an account |
| Accounts.NamesNeverPileUp | internal/store/sqlstore.go:98-137 | With writes one at a time, no lowered name ever has more holders than before, beyond one |
| AccountWrites.PasswordIsChanged | internal/store/sqlstore.go:517-533 | Answered Ok exactly for a stored local active account with the old hash; then the new hash is stored, must-change is cleared, every other column stays, and no session of the account is left |
| AccountWrites.NewPasswordSignsIn | internal/store/sqlstore.go:441-533 | After a completed change a sign-in under the new hash opens a session, and one under the old hash, when it is another, is refused |
| AccountWrites.PasswordIsReset | internal/store/sqlstore.go:535-558 | Answered Ok exactly for a stored local account; it becomes an active administrator who must change the new password, every other column stays, no session of it is left |
| AccountWrites.ResetPasswordSignsIn | internal/store/sqlstore.go:441-558 | After a reset exactly the new hash signs in |
| AccountWrites.RoleIsSet | internal/store/sqlstore.go:307-348 | Answered Ok exactly with role and status as read; only the role changes, and the sessions go exactly when it does |
| AccountWrites.ProfileIsUpdated | internal/store/sqlstore.go:286-348 | Which of the four answers a SCIM update gets, and the columns it stores: the externalId only while the row is SCIM's own, the sessions gone exactly when role or status moved |
| AccountWrites.AccountIsTakenOver | internal/store/sqlstore.go:296-348 | Answered Ok exactly for the unmanaged KyIdentity row of that subject with role and status as read; it keeps its subject and becomes managed |
| AccountWrites.IdentityIsLinked | internal/store/sqlstore.go:350-359 | Only the provider of a scim row with this subject changes, to kysignon, and no session goes |
| AccountWrites.AccountIsDeleted | internal/store/sqlstore.go:361-372 | Exactly the row, its sessions and its memberships are gone |
| AccountWrites.SessionIsOpened | internal/store/sqlstore.go:441-470 | Exactly an active account with this hash gets the session, with the dates and sid asked for |
| AccountWrites.DeactivationLocksOut | internal/store/sqlstore.go:286-470 | Once a SCIM update has made an active account inactive it has no session, and no hash opens one |
| SqlStore.Store.CheckUsernameFree | internal/store/sqlstore.go:159-181 | The two queries answer exactly whether another account holds the lowered name, an account keeping its own name passing |
| SqlStore.Store.Update | internal/store/sqlstore.go:328-341 | The UPDATE over the whole table touches exactly the row its WHERE clause matches, answers how many, and refuses a name another row has |
| SqlStore.Store.CreateUser | internal/store/sqlstore.go:98-137 | The insert with its name check is the atomic Create; a database lost at any statement leaves the tables as they were |
| SqlStore.Store.UpdateProfile | internal/store/sqlstore.go:286-348 | Name check, UPDATE by row count, session delete and commit are the atomic write with its outcome in each case; a failure at any of them rolls everything back |
| SqlStore.Store.LinkSsoIdentity | internal/store/sqlstore.go:350-359 | Linking moves a scim row with this very subject to kysignon and otherwise reports a conflict |
| SqlStore.Store.DeleteUser | internal/store/sqlstore.go:361-372 | Deletion takes the account's sessions and memberships with it, and nothing else |
| SqlStore.Store.CompletePasswordChange | internal/store/sqlstore.go:517-533 | The guard, the update and the revocation act as the one compare-and-swap that AccountWrites.PasswordIsChanged states column by column, or leave the tables as they were |
| SqlStore.Store.ResetAdminPassword | internal/store/sqlstore.go:535-558 | The operator reset makes a local account active, administrator and must-change and revokes its sessions, or leaves the tables as they were |
| SqlStore.Store.CreateSession | internal/store/sqlstore.go:466-490 | Alone, it opens the session under the password guard and takes it back when an unexpired fence covers it; after the commit, only a delete that fails can leave a session it did not report |
| SqlStore.Store.EndSsoSession | internal/store/sqlstore.go:492-502 | Fences purged, the sid fenced, exactly its sessions deleted |
| SqlStore.Store.EndSsoSubject | internal/store/sqlstore.go:504-515 | Fences purged, the subject's cutoff raised but never lowered or extended; a session goes exactly when it is dated before the cutoff and its stored account has this provider and this subject |
| SqlStore.Store.GetSession | internal/store/sqlstore.go:568-589 | A stored unexpired session is found; an expired one is deleted and not found |
| Transactions.CommitIsAtomic | internal/store/sqlstore.go:317-348 | What a transaction commits is what its write does to the tables as they stand at the commit instant; without name clashes, name checks included |
| Transactions.RefusedForAReason | internal/store/sqlstore.go:317-348 | A transaction turned away at its row or its guard would be refused run alone at that instant; one turned away for its name found another holder |
| Transactions.AloneIsApply | internal/store/sqlstore.go:98-348 | From any state in which nobody holds its locks a transaction has a run to its end by its own steps that does and answers what its write does and answers alone, name checks included |
| Transactions.RunIsSerial | internal/store/sqlstore.go:159-181 | Every run of interleaved transactions changes the tables one whole write at a time; from a clash-free table, lowered names stay unique |
| Transactions.GrantsLastWhileStored | internal/store/sqlstore.go:441-470 | In every interleaving, a session stored at two moments was stored between, for an existing active account whose role, status, password hash and must-change flag never changed meanwhile |
| NameRuns.HoldersNeverExceedTheStart | internal/store/sqlstore.go:159-181 | In every interleaving from any table, clashing or not, no lowered name is held by more accounts than when the run began, beyond one |
| NameRuns.MutexKeepsNamesFromRising | internal/scim/handler.go:404-435 | With the mutex letting one SCIM rename run at a time, and new accounts under new ids, no name is ever held by more accounts than at any earlier moment, beyond one, from any table and between any other transactions |
| NameRuns.MutexMakesRunsSerial | internal/scim/handler.go:404-435 | In such a run, from any table, every commit is its write run alone, name checks and uniqueness included, and every other step a logout's deletes, one whole statement or nothing |
| NameRuns.NoRunRisesExactlyWithoutClash | internal/store/sqlstore.go:154-181 | What the store's own check is worth without that mutex: no run ever raises a name's holders above an earlier moment, beyond one, exactly from tables without a clash |
| NameRuns.Clash.HoldersRise | internal/scim/handler.go:404-406 | Why the mutex is needed: with two renames of one account in flight, a clashing name loses a holder and gets it back |
| SessionProtocol.AuthenticationIsLinearizable | internal/auth/session.go:132-157 | When request authentication succeeds, the role, status, password hash and must-change flag it returns are the account's own at the instant of the second session read, and a must-change user passes only on an exempt request; that the session was unexpired is SessionOutcomes.AuthenticatedWasUnexpired |
| SessionOutcomes.RequestIsKept | internal/auth/session.go:132-157 | Every process is at every moment on its way from, or stopped on, the very request it was started with |
| SessionOutcomes.AuthenticatedWasUnexpired | internal/store/sqlstore.go:568-589 | For every request that authenticates there is a moment after its first read and one after its second at which the clock was compared with the session's expiry and had not passed it |
| SessionOutcomes.LastingSessionAuthenticates | internal/auth/session.go:132-157 | A request whose session stays stored and unexpired, for an account that stays active and may pass, is never refused: unless it is cut off, it is authenticated exactly when it has taken its five steps |
| SessionOutcomes.SignInWasStored | internal/store/sqlstore.go:441-470 | A sign-in past its first step stored its session exactly as asked, for an account active and with the hash it was checked against at that moment |
| SessionOutcomes.OpensForTheActive | internal/store/sqlstore.go:441-470 | A sign-in goes on exactly for an active account with the hash, and otherwise changes nothing |
| SessionOutcomes.SignInIsDecided | internal/store/sqlstore.go:471-490 | A sign-in is taken back exactly on a live fence of its sid, or one of its account's identity with a cutoff after its date, and kept exactly without; stated in the columns of the fence rows |
| SessionOutcomes.TakenBackForALogout | internal/store/sqlstore.go:466-515 | From tables without fences, a sign-in is taken back only if a logout was started of its own sid, or of its account's KyIdentity subject with a cutoff after its date |
| SessionOutcomes.FencesWereAskedFor | internal/store/sqlstore.go:492-515 | Every stored fence was there from the start or was asked for, with this cutoff and expiry, by a logout |
| SessionOutcomes.SessionLeavesFor | internal/store/sqlstore.go:361-597 | A step takes a session out of the table exactly when it is the one signed out, found unusable or taken back, one of the logout's own, or one of an account whose write revokes |
| SessionProtocol.SidLogoutFence | internal/store/sqlstore.go:466-502 | Once a sign-in and a logout of its sid have both finished, the session is gone unless that sid's stored fence reached its expiry between the logout's fence and the sign-in's check |
| SessionProtocol.SubjectLogoutFence | internal/store/sqlstore.go:466-515 | The same for a logout by subject, which covers exactly the logins of its own second or earlier |
| LogoutFences.FenceReachesItsTerm | internal/store/sqlstore.go:504-515 | After a logout the stored fence lasts to the expiry it asked for exactly when no unexpired row with an equal or later cutoff ends earlier |
| LogoutFences.SurvivorOutlastsTheTerm | internal/store/sqlstore.go:466-515 | Under that condition, and with no shorter term asked for in between, a session dated before the cutoff that survives was checked no earlier than the expiry this logout asked for |
| LogoutFences.SurvivorOutlastsTheSidTerm | internal/store/sqlstore.go:466-502 | The same for a logout by sid, whose fence always replaces the stored one |
| LogoutFences.Relogin.SurvivesTheSecond | internal/store/sqlstore.go:504-515 | A run in which a login dated before two logouts survives both although it was checked before the second one's expiry, the first row having been kept |
| SessionProtocol.LogoutRemovesOnlyItsOwn | internal/api/sso_handlers.go:166-172 | A logout's delete takes exactly the sessions of its sid, or those dated before its cutoff whose account is stored with provider kysignon and the logout's own subject; so none of another subject, none dated later and no local one |
| SessionProtocol.SidStaysCovered | internal/store/sqlstore.go:492-502 | A sid fenced once stays fenced at every step, or a moment is on record at which its fence had expired |
| SessionProtocol.SubjectStaysCovered | internal/store/sqlstore.go:504-515 | The same for a subject fence and any cutoff it covers |
| SessionProtocol.SignInMeetsSidLogout | internal/store/sqlstore.go:466-502 | A sign-in that passes its fence check after the logout's fence was stored proves that fence expired |
| SessionProtocol.LogoutMeetsSignIns | internal/store/sqlstore.go:492-515 | The logout's delete removes the sessions of sign-ins that finished before it |
| SessionProtocol.RunStaysOk | internal/store/sqlstore.go:466-515 | The invariant of all sign-ins, logouts and authentications, in every state of every run |
| ScimUser.VisitValues | internal/scim/handler.go:437-469 | The pass over a value map in any order is the fold of its attributes |
| ScimUser.ApplyUserPatch | internal/scim/handler.go:315-375 | The loop over operations stops at the first refusal and otherwise ends with them done in order; what each of them does to the account and to what GET prints is the ScimOperations rows below |
| ScimOperations.PutReadsEach | internal/scim/handler.go:286-296 | What PUT makes of every attribute, sent or omitted: an omitted email is cleared, an omitted role, externalId or status is kept, kept and active, a missing display name is the user name |
| ScimOperations.ListReadsFirst | internal/scim/handler.go:751-770 | A multi-valued attribute reads as the first of its elements that carries a text |
| ScimOperations.RemoveEmails | internal/scim/handler.go:332-375 | A remove that reaches the emails clears the address and nothing else, and GET then prints no emails and the rest as before |
| ScimOperations.RemoveRoles | internal/scim/handler.go:332-375 | A remove that reaches the roles makes the role user and changes nothing else |
| ScimOperations.SetEmails | internal/scim/handler.go:332-375 | An add or replace that reaches the emails stores the address sent and changes nothing else; a filter reaches exactly an element GET prints, or the one an add describes |
| ScimOperations.SetRoles | internal/scim/handler.go:332-375 | The same for the roles, an empty value giving the role user |
| ScimOperations.RemovePlain | internal/scim/handler.go:338-352 | Removing the display name puts the user name there, removing the externalId empties it, removing the user name, the status or a role by that name does nothing |
| ScimOperations.SetPlain | internal/scim/handler.go:442-469 | Adding or replacing a single-valued attribute stores the value sent, or nothing when it is of the wrong kind |
| ScimOperations.OthersAreIgnored | internal/scim/handler.go:315-375 | Sub-attributes, filters on single-valued attributes, unknown attributes and removes without a path change nothing and are not refused |
| ScimOperations.RefusedExactlyWithoutTarget | internal/scim/handler.go:354-365 | NoTarget is answered exactly for a replace whose filter on emails or roles hits nothing GET prints |
| ScimOperations.OperationsInTurn | internal/scim/handler.go:315-331 | A list of operations is its first part and then its second, the first refusal ending it |
| ScimOperations.BodyIsItsKeys | internal/scim/handler.go:437-441 | A path-less body does what its keys do as operations with paths, in the order visited |
| ScimUser.OrderIsInvisible | internal/scim/handler.go:437-441 | Whatever order a map is visited in, the account comes out the same when no two keys name one attribute |
| ScimUser.PatchReadsLikePut | internal/scim/handler.go:286-331 | A path-less PATCH of a complete body does what PUT does, in whatever order it is visited |
| ScimUser.PrintedReadsBack | internal/scim/handler.go:471-480 | Reading back what GET prints gives the same account exactly when the display name is not one PUT fills in and the status is active or inactive |
| ScimUser.PutBackChangesNothing | internal/scim/handler.go:279-296 | Putting back a GET is accepted and leaves every table as it is, sessions included, under exactly that condition |
| ScimUser.PutTwiceIsPutOnce | internal/scim/handler.go:404-435 | An accepted PUT applied twice leaves the tables and the answer of applying it once |
| IdentityProtocol.ScimUpdateIsAtomic | internal/scim/handler.go:404-435 | A committed update stores exactly its request applied to the row as it stood at the commit, not as it was read, touches no other row, and took at most four attempts |
| IdentityProtocol.TakeOverIsAtomic | internal/scim/handler.go:180-196 | A take-over stores the create's attributes on the unmanaged KyIdentity row as it stood at the commit, keeping its subject |
| IdentityProtocol.ChangeReadsProfile | internal/scim/handler.go:287-375 | A request reads and writes nothing of a row but user name, email, display name, role, status and subject |
| IdentityProtocol.ScimGrantsNoAdmin | internal/scim/handler.go:100-107 | With admin grants off no SCIM step makes an administrator of a row that was not one at that moment, even from a stale read |
| IdentityProtocol.ScimTouchesOnlyItsOwn | internal/scim/handler.go:111-120 | SCIM changes no row it does not manage, except that a take-over claims a KyIdentity row |
| IdentityProtocol.IdentityLifecycle | internal/sso/kysignon.go:47-63 | Over any stretch of a run a provider moves only from scim to kysignon, a KyIdentity subject is immutable, the managed flag is never cleared and never set on a local row |
| IdentityProtocol.ManagedThroughout | internal/scim/handler.go:683-696 | In every state every scim row and every group member is managed and no local row is |
| IdentityProtocol.AttemptsAreBounded | internal/scim/handler.go:404-435 | An attempt of update is one of four and runs under the mutex |
| IdentityOutcomes.RequestIsKept | internal/scim/handler.go:404-435 | Every SCIM and callback process keeps to the request, body or claims it was started with |
| IdentityOutcomes.MutexIsReleased | internal/scim/handler.go:404-406 | Only a process that has not left its section holds the SCIM user mutex |
| IdentityOutcomes.UpdateReadsManaged | internal/scim/handler.go:404-418 | An update starts its four attempts under the free mutex, and each goes on exactly with a stored managed account |
| IdentityOutcomes.AttemptEndsWell | internal/scim/handler.go:404-435 | An attempt stores exactly when the request is permitted, the name free and role, status and subject as read; it is repeated exactly when only these moved and attempts are left; otherwise it writes nothing |
| IdentityOutcomes.CreateAsksSubject | internal/scim/handler.go:147-159 | A create takes over the KyIdentity account of its externalId, is refused when SCIM has it already, and otherwise asks the name |
| IdentityOutcomes.CreateAsksName | internal/scim/handler.go:160-174 | By name it takes over an unmanaged KyIdentity account, unless an externalId was sent that is not its subject, and inserts in every other case |
| IdentityOutcomes.CreateStores | internal/scim/handler.go:122-140 | The account created holds what was sent and the documented value of what was not, or nothing is written |
| IdentityOutcomes.TakeOverEndsWell | internal/scim/handler.go:180-196 | A take-over succeeds exactly on the row it was decided on, still unmanaged, with its role and status as read, and otherwise writes nothing |
| IdentityOutcomes.DeleteTakesManaged | internal/scim/handler.go:298-303 | A SCIM delete removes exactly a managed account it found |
| IdentityOutcomes.MemberIsAdded | internal/scim/handler.go:683-717 | A membership is added exactly for an account managed when looked up and still stored when written |
| IdentityProtocol.CallbackHandsOver | internal/api/sso_handlers.go:75-129 | A callback that reaches session creation holds the KyIdentity row of the token's subject, read active and in the token's role |
| IdentityOutcomes.CallbackLooksUp | internal/api/sso_handlers.go:75-79 | The callback goes on with the KyIdentity account of its subject exactly when there is one |
| IdentityOutcomes.CallbackAdoptsScim | internal/sso/kysignon.go:47-54 | Without one it links the scim account of that subject, never for an empty subject, and provisions when there is none |
| IdentityOutcomes.CallbackLinksOnce | internal/sso/kysignon.go:55-63 | The link is made exactly while the row is SCIM's own of that subject; otherwise the callback looks again |
| IdentityOutcomes.ProvisionStores | internal/api/sso_handlers.go:80-103 | A provisioned account holds what the token says, the role user when it says none, and a taken name refuses it |
| IdentityOutcomes.CallbackChecksAccount | internal/api/sso_handlers.go:109-127 | An inactive account is refused, and the role is set exactly when the token carries another |
| IdentityOutcomes.CallbackSetsRoleOnce | internal/api/sso_handlers.go:113-127 | It is set only if role and status are still as found, and the callback is refused otherwise |
| IdentityOutcomes.MadeOnlyIfUnknown | internal/api/sso_handlers.go:74-106 | In every run an account is made, by a callback or under an externalId, only if at some earlier moment no KyIdentity account had that subject |
| IdentityOutcomes.KnownPersonSignsIn | internal/api/sso_handlers.go:74-129 | A callback for a person whose KyIdentity account stays active and in the token's role is never refused and is at session creation after two steps |
| IdentityProtocol.BackfillStartsOk | internal/store/migrations/migrations.go:306-314 | The backfill establishes these invariants exactly when every group member of the day is a scim row |
| Groups.ApplyOperations | internal/scim/handler.go:620-677 | The loop over group operations refuses exactly when their plan is invalid, and otherwise leaves the fold of add, remove and replace over the starting members; which lists those are, and who is a member afterwards, in the operations' own fields, is the GroupOperations rows below |
| Groups.GroupHandler.CheckMembers | internal/scim/handler.go:683-696 | Passes exactly when every id not already a member is a managed account |
| Groups.GroupHandler.ReplaceMembers | internal/scim/handler.go:699-717 | The table ends with exactly the new members, and each write moves one member of the symmetric difference the right way |
| Groups.GroupHandler.Replace | internal/scim/handler.go:586-605 | A refusal writes nothing; otherwise the row is merged and the membership is exactly the one asked for |
| Groups.GroupHandler.Patch | internal/scim/handler.go:613-679 | A PATCH refuses before any write, or leaves the members its operations make of the starting set, touching only the difference and no other group; what they make of it is the GroupOperations rows below |
| GroupOperations.RefusedExactlyIfMalformed | internal/scim/handler.go:620-677 | A list is refused as an invalid path exactly when one of its operations has a member sub-attribute, a members filter that is not a remove by value, or a body key that hides one of these |
| GroupOperations.MembersStayUnlessTaken | internal/scim/handler.go:620-677 | Over any accepted list, a member goes only if an operation replaces the members, removes them all, or removes this one by value or filter; an id becomes a member only if an add or replace lists it |
| GroupOperations.LastWordDecides | internal/scim/handler.go:620-677 | An operation that gives a membership and takes none decides it against everything before it; so does one that takes it |
| GroupOperations.FilteredRemoveTakesOne | internal/scim/handler.go:662-673 | A remove of members with a value filter alone leaves exactly the starting members without that one, whatever value it carries |
| GroupOperations.FieldStays | internal/scim/handler.go:620-677 | A group's name or externalId that no operation sends a text for stays as it was |
| GroupOperations.LastTextDecides | internal/scim/handler.go:620-677 | Otherwise it is the text of the last operation that sends one |
| GroupOperations.EmptyKeepsStored | internal/scim/handler.go:586-593 | An empty name or externalId keeps the stored one |
| Groups.PerformInTurn | internal/scim/handler.go:650-677 | Performing two lists of operations in turn is performing their concatenation |
| Groups.MapsReadBack | internal/scim/handler.go:722-739 | The member maps PATCH hands on are read back as the same ids |
| Groups.OrderChangesNothing | internal/scim/handler.go:652-660 | With no two keys differing only in letter case, the order of a body changes neither refusal, members nor the group's own fields |
| GroupRuns.PatchesSerialize | internal/scim/handler.go:580-717 | However group writes, deletions of accounts and of the group, and failures interleave, the members are those of one serial log: a finished write whole at the place where it read, an unfinished one by what it wrote, a deletion by what it took |
| GroupRuns.MembersAreManaged | internal/scim/handler.go:683-717 | In every state every member is a stored account SCIM manages, and a deleted group has none |
| GroupRuns.DeletedIsNeverAdded | internal/scim/handler.go:699-717 | No write under way or later makes a deleted account a member again |
| GroupRuns.NoAddIsLost | internal/scim/handler.go:580-717 | A member that a finished write adds or names in a replacement stays unless a write that read the members later takes it away, or its account or the group is deleted |
| GroupRuns.MutexIsReleased | internal/scim/handler.go:580-617 | Only a group write that has not left its section holds the mutex |
| GroupRuns.StepIsCloser | internal/scim/handler.go:683-717 | Every statement of an undisturbed write brings it closer to its end |
| GroupRuns.WriteIsNotRefused | internal/scim/handler.go:580-717 | A write to a group that stays, adding only accounts that stay stored and managed, is never refused, whatever else runs |
| Directory.ListScimUsers | internal/store/sqlstore.go:382-425 | The page holds managed, narrowed rows of the table in its order, at most the limit, from the offset on; the total counts all of them |
| Directory.EqualIsNarrowed | internal/store/sqlstore.go:396-400 | A row whose attribute equals the value ignoring case is always among those LIKE keeps, wildcards and blanks in the value notwithstanding |
| Directory.NarrowingLosesNothing | internal/scim/handler.go:238-261 | Comparing exactly after narrowing finds what comparing every row would |
| Directory.NarrowedMeansWithin | internal/store/sqlstore.go:396-400 | A search without wildcards keeps exactly the rows of which some name, display name or address has the text within, case and outer blanks aside |
| Directory.LikeReads | internal/store/sqlstore.go:396-400 | A percent sign stands for any text, an underscore for any one character |
| Directory.FilterListsEqual | internal/scim/handler.go:249-261 | The list an equality filter stands for is, in table order, exactly the managed rows whose user name, address or display name is the value |
| Directory.PageHolds | internal/scim/handler.go:262-268 | Which elements a page holds, and how many, for every start index and count |
| Directory.KeepEqual | internal/scim/handler.go:249-261 | The loop keeps exactly the candidates equal ignoring case, in order |
| Directory.FilterUsers | internal/scim/handler.go:213-269 | An equality filter answers the page of exactly the managed accounts whose attribute equals the value ignoring case, or refuses a blank value or too many candidates; a userName filter answers by the one row it looks up |
| Directory.LookupIsExact | internal/scim/handler.go:228-237 | Whichever row the lookup returns, a userName filter answers as reading every row would, exactly when one row holds the name or none that does is managed |
| Directory.PagesConcatenate | internal/scim/handler.go:262-268 | Consecutive pages, filtered or listed, concatenate to the whole result once each |
| Directory.FilterGroups | internal/scim/handler.go:544-578 | The scan ends after at most 1001 calls whatever the store answers, and over a table that stands still finds every group with the id or refuses |
| Directory.GroupsAreThoseWithId | internal/scim/handler.go:564-570 | What it finds is, in table order, exactly the groups with that externalId |
| Directory.GroupNames | internal/store/migrations/migrations.go:348-362 | The grouping loop lists each lowered name once with all its rows |
| Directory.NamesLikeAreExact | internal/store/migrations/migrations.go:348-362 | A clash lists, in order, exactly the names with its lowered form |
| Directory.EnsureUsernameIndex | internal/store/migrations/migrations.go:341-371 | The index is built exactly when no two names clash, and otherwise every clash is reported whole |
| Fips180.ZeroBytesAreSmallest | web/src/components/sha256.ts:22-25 | The padding adds the smallest number of zero bits section 5.1.1 of FIPS 180-4 asks for |
| FipsConstants.PrimesAreFirst | web/src/components/sha256.ts:6-15 | Up to its last number the list of primes holds every prime and nothing else |
| FipsConstants.PrimesRise | web/src/components/sha256.ts:6-15 | And it rises and ends there, so it is the first sixty-four primes |
| FipsConstants.RoundConstants | web/src/components/sha256.ts:6-15 | Each of the 64 round constants is the first 32 bits of the fractional part of the cube root of its prime, section 4.2.2 |
| FipsConstants.InitialValue | web/src/components/sha256.ts:30-31 | Each word of the initial hash value is the first 32 bits of the fractional part of a prime's square root, section 5.3.3 |
| Fips180.PadFillsBlocks | web/src/components/sha256.ts:22-23 | The padded length is a whole number of blocks, the count the code computes |
| Sha256.RotationsMean | web/src/components/sha256.ts:35-44 | The signed and unsigned shifts, ors and xors of JavaScript stay congruent to the standard's rotations |
| Sha256.Sum5Means | web/src/components/sha256.ts:43-43 | Every partial sum is exact below 2^53 and the wrapped total is the standard's sum modulo 2^32 |
| Sha256.NextNumbers | web/src/components/sha256.ts:41-48 | One turn of the compression loop in mixed signed and unsigned numbers is one round of section 6.2.2 |
| Sha256.Hasher.FillSchedule | web/src/components/sha256.ts:33-39 | The shared buffer ends holding the block's message schedule |
| Sha256.Hasher.Compress | web/src/components/sha256.ts:33-50 | One block takes the eight numbers to the standard's next hash value |
| Sha256.Hasher.SetUint32 | web/src/components/sha256.ts:26-28 | Four bytes written big-endian, nothing else touched |
| Sha256.Hasher.PadMessage | web/src/components/sha256.ts:22-28 | The buffer is the padded message of section 5.1.1 |
| Sha256.EightBytes | web/src/components/sha256.ts:27-28 | The two 32-bit halves written are the 64-bit length |
| Sha256.PaddedHex | web/src/components/sha256.ts:52-52 | toString(16) with padStart is the fixed-width hexadecimal of a word |
| Sha256.Hasher.Sha256Hex | web/src/components/sha256.ts:20-53 | For every byte string below 2^50 bytes the result is the hexadecimal SHA-256 digest of FIPS 180-4 |
| Limiter.AttemptLimiter.AllowAttempt | internal/api/server.go:159-169 | The answer and the whole new table of one attempt, pruning and eviction included |
| Limiter.AttemptLimiter.MakeRoom | internal/api/server.go:171-188 | Exactly the expired windows go, and one live entry only if the table is still full |
| Limiter.AttemptLimiter.AttemptsExhausted | internal/api/server.go:190-197 | Whether a live window has used its limit, without counting |
| Limiter.TableStaysBounded | internal/api/server.go:116-188 | The table never exceeds 10000 keys |
| Limiter.PruningIsInvisible | internal/api/server.go:171-188 | For a key never thrown out live, with calls in the order of their readings, every answer and every check is that of a table that only grows |
| LimiterSpans.OnlyOrderHidesPruning | internal/api/server.go:159-188 | Such a key's calls are answered as by a table that only grows exactly when no reading reaches the lock late, not even by a nanosecond |
| LimiterSpans.SpanIsBounded | internal/api/server.go:159-205 | With calls in the order of their readings, no span of time as long as the window sees more than 2 * limit - 1 attempts for such a key allowed |
| LimiterSpans.BoundIsReached | internal/api/server.go:159-205 | A run for every limit and window in which that many are allowed |
| LimiterSpans.LateSpanIsBounded | internal/api/server.go:160-168 | With readings late by at most s nanoseconds and a table that never fills, such a span sees at most w * (limit - 1) + 1, where w = (2 * window + s) / (window + 1) + 1 windows can meet it |
| LimiterSpans.LateBoundIsReached | internal/api/server.go:160-168 | A run for every limit, window and lateness in which that many are allowed |
| LimiterSpans.PrunedSpanIsBounded | internal/api/server.go:159-188 | With a table that may fill and readings late by at most s, no more than the window, windows of a key still open at least window + 1 - s apart, and a span sees at most the limit less one of each window it can meet, and one more of each that can open in it |
| LimiterSpans.BoundedWhileWithinTheWindow | internal/api/server.go:159-188 | When the table may fill, what a span allows has any bound at all exactly when no reading is late by more than the window |
| LimiterSpans.LateByOneKeepsMost | internal/api/server.go:160-168 | While the table never fills, every run keeps 2 * limit - 1 exactly when readings are late by at most one nanosecond, or the limit is at most one |
| LimiterSpans.OnlyOrderKeepsMost | internal/api/server.go:159-188 | When the table may fill and be pruned, every run keeps 2 * limit - 1 exactly when no reading is late |
| Limiter.HandleLogin | internal/api/auth_handlers.go:49-99 | What a sign-in answers at each of its gates, twenty per client and minute and ten wrong passwords per account and quarter of an hour, and that only a wrong password is counted against the account |
| Limiter.GatesInOrder | internal/api/auth_handlers.go:49-99 | Exactly when each answer is given: malformed, unsolved, used up, failed lookup, and only then right or wrong password |
| Limiter.GuessesPerWindow | internal/api/auth_handlers.go:75-99 | In any run of the shared table, attempts reaching the lock however late after their readings, with at most m sign-ins of an account in flight at once, at most 10 + m - 1 passwords are found wrong from the opening of its window to the reset instant |
| Limiter.GuessBoundIsReached | internal/api/auth_handlers.go:75-99 | For every m a run in which that many are |
| Limiter.TenGuessesPerWindow | internal/api/auth_handlers.go:75-99 | One at a time, at most ten |
| ProofOfWork.DecimalsDiffer | internal/auth/pow.go:64-64 | Different numbers are written differently |
| ProofOfWork.DecimalReadsBack | internal/auth/pow.go:64-64 | A number is written in decimal without leading zeros, with a sign only when negative |
| ProofOfWork.CharReadsBack | web/src/components/sha256.ts:20-21 | Text reaches the hash in the encoding of section 3 of RFC 3629, never longer than needed |
| ProofOfWork.FreshChallengeIsAccepted | internal/auth/pow.go:41-73 | A challenge asks for a number up to the configured difficulty, half a million by default, and its target is accepted for exactly five minutes |
| ProofOfWork.PayloadsDiffer | internal/auth/pow.go:127-127 | A payload equal to an issued one has the same four fields, whatever colons the submission carries |
| ProofOfWork.AcceptedWasIssued | internal/auth/pow.go:109-138 | With signatures unforgeable, an accepted submission carries exactly the fields of an issued challenge |
| ProofOfWork.IssuedIsSolvable | internal/auth/pow.go:41-73 | Every issued challenge has a solution from 1 to its maximum |
| ProofOfWork.Solve | web/src/components/CaptchaWidget.tsx:35-71 | The loop returns the smallest solution, fails only if there is none, and stops early only when the page is left |
| ProofOfWork.SolvedIsAccepted | internal/auth/pow.go:109-140 | For an issued challenge, a number is accepted exactly when it solves it and the expiry second is not over |
| ProofOfWork.AcceptedMeans | internal/auth/pow.go:109-140 | Whatever is accepted has a number in range whose hash with the salt is the challenge, before its expiry and under a signature of these fields |
| ProofOfWork.SolveIssued | web/src/components/CaptchaWidget.tsx:35-71 | From an issued challenge the loop always ends with a submission accepted at every moment up to expiry |
| ProofOfWork.PoWSpent.Spend | internal/auth/pow.go:87-105 | The answer and the whole new set of one spend, prune included |
| ProofOfWork.SetIsLedger | internal/auth/pow.go:87-105 | The pruned set answers like a ledger of everything ever accepted |
| ProofOfWork.SpentOnce | internal/auth/pow.go:87-105 | A spend is accepted exactly when no accepted one before it covers the salt at that time |
| ProofOfWork.SetStaysBounded | internal/auth/pow.go:75-104 | The set never outgrows its pruning threshold |
| ProofOfWork.ScanningIsAmortised | internal/auth/pow.go:95-102 | All prunes of a run together scan at most two entries per accepted spend |
| ProofOfWork.VerifySolution | internal/auth/pow.go:109-140 | The checks in order, then the spend, with or without a spent set |
| ProofOfWork.OneAttemptPerChallenge | internal/auth/pow.go:109-140 | After a challenge bought an attempt, another still valid submission of it is accepted exactly when its salt is spent after the expiry second |
| ProofOfWork.ExpiryTickBuysAgain | internal/auth/pow.go:122-139 | Two submissions of one solution, both checked in the expiry second, both accepted |
| ClientAddress.IsTrusted | internal/auth/clientip.go:81-88 | Whether some prefix contains the address |
| ClientAddress.ClientIP | internal/auth/clientip.go:26-47 | The loop is the walk from the right, the header ignored for an untrusted or unparsable peer |
| ClientAddress.PeerIsHost | internal/auth/clientip.go:68-79 | The peer is the host of the remote address without its port or brackets, a mapped address as IPv4 |
| ClientAddress.LastEntryDecides | internal/auth/clientip.go:37-66 | The last entry, an address bare or with a port, is passed exactly when it is a trusted proxy and is the answer otherwise; what is no address leaves the peer |
| ClientAddress.WalkEndsRightmost | internal/auth/clientip.go:37-45 | The answer is decided by the rightmost entry that is untrusted or does not parse |
| ClientAddress.WalkFindsUntrusted | internal/auth/clientip.go:37-47 | The answer is the peer, or an address outside every trusted prefix that is not an IPv4-mapped one |
| ClientAddress.ForgedLines | internal/auth/clientip.go:33-45 | Header lines put before the proxies' own change nothing once the walk ends among those, and never for an untrusted peer |
| ClientAddress.ForgedText | internal/auth/clientip.go:33-36 | Text before a comma within a line counts as a line of its own |
| ClientAddress.WalkIgnoresForged | internal/auth/clientip.go:37-45 | Entries to the left matter exactly when every entry to their right is a trusted proxy |
| ClientAddress.UnmapPrefixKeepsMembers | internal/config/config.go:341-349 | Rewriting a mapped prefix keeps exactly its IPv4 members; one too short to rewrite matches no IPv4 address |
| ClientAddress.ParseTrustedProxies | internal/config/config.go:306-339 | The loop reads every field in order or stops at the first refusal, with its reason |
| ClientAddress.ReadWhenEveryFieldIs | internal/config/config.go:306-339 | The list is accepted exactly when every field that is not blank is an address or a block that does not mean a whole family |
| ClientAddress.FieldIsRefusedFor | internal/config/config.go:317-336 | For which of the three reasons a field is refused |
| ClientAddress.RefusedForTheFirst | internal/config/config.go:310-339 | A refused list is refused for its first field that is |
| ClientAddress.ListIsUnion | internal/config/config.go:310-339 | An address is trusted exactly when some field names it |
| ClientAddress.AcceptedLeavesSomeOut | internal/config/config.go:322-328 | No accepted prefix has zero bits, and each leaves out some address of its family |
| ClientAddress.TrustsFamilyWithoutGap | internal/config/config.go:310-339 | A list trusts every address of a family exactly when it trusts address zero and the address right after each of its prefixes that ends below the top |
| ClientAddress.TwoHalvesTrustEveryAddress | internal/config/config.go:310-339 | A list naming 0.0.0.0/1 and 128.0.0.0/1 is accepted and trusts every IPv4 address |
| ClientAddress.KeyIsTop64Bits | internal/auth/clientip.go:90-98 | Two plain IPv6 addresses share a rate-limit key exactly when their top 64 bits agree |
| ClientAddress.OthersAreTheirOwnKey | internal/auth/clientip.go:90-98 | IPv4, mapped addresses and text that is no address are their own keys |
| Shutdown.ReturnsWhenNoneRuns | internal/api/server.go:98-109 | WaitDetached returns only at a moment when no tracked request is running |
| Shutdown.BroadcastPending | internal/api/server.go:66-109 | While a waiter sleeps and nothing is counted, a broadcast that wakes it is on its way |
| Shutdown.StuckMeansDone | internal/api/server.go:53-109 | A run that can go no further has every request gone and every waiter returned |
| Shutdown.RunsAreFinite | internal/api/server.go:53-109 | Every run ends, within a bound its processes give |
| Shutdown.ReturnsWhenDoneOrLate | cmd/server/main.go:170-189 | The wait for backup work returns only when both waits are over or the deadline has passed, and abandons work only after the deadline |
| Shutdown.DoneIsNotAbandoned | cmd/server/main.go:175-184 | A backup that is over when the waits begin is never reported as abandoned |
| Shutdown.LateNeverBlocks | cmd/server/main.go:173-189 | Past the deadline nothing blocks it, and each of its steps brings it closer to returning |
| Shutdown.DoneNeverBlocks | cmd/server/main.go:173-189 | Nor does anything once both waits are over |

## Left out

- UpdateUser and UpdateUserProfile: no product code calls them, and the first could change credentials without revoking sessions; they are in no step relation.
- Accounts.Lower: ASCII only; Unicode case folding, and its disagreement with the database's LOWER, are not modelled, though only the filters look inside it.
- Directory.EqualIsNarrowed: LIKE has no escape character here, as in SQLite; a backslash in PostgreSQL's LIKE is not modelled.
- Directory.EnsureUsernameIndex: the rows come in the order of the query; that ORDER BY puts them in it is not modelled.
- Directory.FilterUsers: reads one state of the table; a table changing between the pages of one client is not modelled.
- SessionProtocol.SubjectLogoutFence: speaks of KyIdentity accounts, the only provider the logout handler names; that a callback hands over such an account is IdentityProtocol.CallbackHandsOver.
- SessionProtocol: single statements and single transactions are its steps, as Transactions proves they may be; its two kinds of locks are not modelled again there.
- Transactions.RunIsSerial: read committed isolation with row locks and the advisory name lock; deadlocks and serialization failures appear only as transactions that abort.
- IdentityProtocol: a process may stop at any step, as when a store call fails; retries by the client are new processes. Group membership appears one member at a time, and auto-provisioning is on.
- Groups.GroupHandler.Patch: here store calls succeed; writes that fail half way, and accounts or the group deleted meanwhile, are in GroupRuns.
- Sha256.Hasher.Sha256Hex: starts at the bytes of the encoded text, and from JavaScript's number semantics rather than an engine.
- LimiterSpans.SpanIsBounded: asks that calls take the lock in the order of their clock readings, which OnlyOrderKeepsMost shows it must, and that the key is never the victim of an eviction; which entry is evicted is arbitrary.
- LimiterSpans.PrunedSpanIsBounded: an upper bound; that it is reached is not shown.
- Limiter.GuessesPerWindow: asks that the account's key is never the victim of an eviction.
- GroupRuns: follows the members of one group; its name and externalId, and a name already in use, appear only as a write that stops.
- SqlStore: a statement that fails is one the database answers an error to; a commit whose answer is lost is not modelled.
- ProofOfWork.SpentOnce: asks that the wall clock does not step back between spends.
- ProofOfWork.AcceptedWasIssued: the keyed hash is a function of the payload, and unforgeability is its hypothesis; random salts are distinct by hypothesis.
- ClientAddress: parsing and printing of addresses and host:port text are functions with stated assumptions; everything after them is modelled.
- Shutdown: a fixed but arbitrary number of requests; new ones arriving for ever can keep the wait from returning, which its deadline is for.
- Sessions' user agent and address, time stamps of rows, audit records, directory-webhook records and push identifiers are not part of this model.
- HTTP, cookies, JSON, base64, SQL text, connection pools and drivers; cryptography (HMAC, Argon2id, AES-GCM, token verification); the backup handlers; migrations other than the two cited; all pages and scripts but the two cited.
