# A verified model of the authentication service

This Dafny project models the stateful parts of the authentication service and proves what they promise over whole
runs: accounts, tokens and OAuth links; the fixed-window rate limiter; cursor and offset pagination; WebSocket
delivery across workers; streaming upload validation and the file records; and the seeding of roles and permissions.

`dafny verify dfyconfig.toml` checks all of it.

## How it is laid out

| file | what it models |
|---|---|
| `Accounts.dfy` | users, links, roles, Redis keys with deadlines and tokens as one value; every handler as a function on it; steps and runs |
| `AccountInvariants.dfy` | what every handler keeps: unique emails and identities, references, a way to sign in, unique jtis, lasting marks |
| `AccountRuns.dfy` | logout and single-use tokens over whole runs |
| `AccountHistory.dfy` | where passwords, OAuth states, links and roles come from; the cleanup |
| `AccountTokens.dfy` | which tokens are accepted, exactly, told from the history of requests: how long a logout or a use lasts, whom a token acts for |
| `AccountLedger.dfy` | every row of the user, role and link tables as a function of the requests and their outcomes |
| `AccountOutcomes.dfy` | when each request succeeds, exactly, said of the tables themselves |
| `AccountJourneys.dfy` | tokens that work and for how long; register, verify and log in; forgot, reset and log in; first and later sign-ins with a provider |
| `AccountAccess.dfy` | deactivated users, who gets tokens, who can grant roles, changed emails |
| `AccountService.dfy` | the handlers as methods that update tables and Redis in place, each proved to do what its function says |
| `RateLimit.dfy`, `RateLimitWindow.dfy`, `RateLimitClients.dfy`, `RateLimitTight.dfy` | the INCR / EXPIRE / compare protocol, its bounds for counters and for clients, and runs that reach them |
| `Pagination.dfy`, `CursorWalk.dfy`, `Listing.dfy` | one page, the cursor codec, whole walks over changing tables, sorted listings and their ties |
| `Decimal.dfy`, `Base64.dfy`, `Text.dfy` | decimal text, URL-safe Base64 (section 5 of RFC 4648), splitting at a separator |
| `WebSockets.dfy`, `WebSocketTraffic.dfy`, `Delivery.dfy` | one worker's connection table, publisher, listener and endpoint; what frames send, by their fields; many workers with queues |
| `FileValidation.dfy`, `UploadRules.dfy`, `Files.dfy` | the chunk loop against a whole-file verdict; which bytes, sizes and types are accepted; stored objects and their rows |
| `Rbac.dfy` | permission checks, the seeding loops, the migration's rows |
| `Wrappers.dfy` | `Option`, `Result` and two facts about finite sets |

Code that changes state is modelled twice: a function from the old state to the new one, about which the properties are
proved, and a method of a class (`Backend`, `RedisCounters`, `RateLimiter`, `ConnectionManager`, `UploadFile`,
`FileService`, `Session`) that works in place and whose `ensures` equates the two.

## Assumptions

- The clock never runs backwards, counts microseconds and is shared by the application and Redis.
- A Redis key is absent from its deadline on. INCR keeps the deadline, SET with EX replaces it.
- User ids, jtis, OAuth states, link ids and upload uuids are fresh when drawn.
- A password verifies against a hash exactly when the hash was made of it.
- A token decodes only if it was issued and not altered. `exp` (section 4.1.4 of RFC 7519) is in whole seconds; how
  long after `exp` a token still decodes is the parameter `grace`.
- Each handler is one atomic step, except in the rate limiter, where INCR and EXPIRE are separate steps of many
  requests, and in delivery, where publishing and consuming a broadcast are separate steps of many workers.
- The database keeps its unique constraints and deletes dependent rows with a user. The account runs do not rely on
  the constraints: uniqueness is proved from the handlers' own checks. The methods of `Backend` ask for
  unique emails and identities (`SchemaOk`), which `AccountInvariants.RunKeepsInv` proves of every reachable state.
- Roles and settings do not change during a run of the account machine. The first administrator is a row the operator
  inserts, as the repository's README says; that is a step of its own (`DatabaseGrant`).

## Where the code does less than one might expect

Each of these is decided for all inputs by an exact condition, and reached by an input:

- Revocation and single use do not last until a token's expiry, because the lifetime of the Redis entry is cut to whole
  seconds. They last exactly until the deadline of the last logout or use that marked the token (`LogoutLastsIff`,
  `UseLastsIff`), and for the rest of the token's life if and only if that came a whole number of seconds, at least
  one, before expiry (`LogoutEffectiveIff`, `ResetAgainIff`). Inputs: `LoggedOutTokenReturns`, `SpentTokenReturns`; a
  second logout can undo the first, `RepeatedLogoutReopens`.
- A token acts for whoever has its subject as email at the moment, not for whom it was issued to: `AccessAcceptedIff`.
  Input: `OldTokenActsForNewOwner`.
- A linking callback does not ask whether the user is active: `LinkingSignsInIff`. Input: `InactiveUserGetsTokens`.
- A refusal is not always preceded by a full window: it is if and only if the counter that refused is younger than one
  period (`RefusalJustifiedIff`). Input, for every limit: `DelayedExpireRefuses`.
- Two scopes can share a counter if and only if one of them with its colon begins the other: `ScopesShareKeyIff`. Input:
  `ColonScopesCollide`. The scopes of the routes do not (`RoutesPrefixFree`).
- A message does not reach every socket of its addressee. `DeliveredIff` says which; inputs: `LostMessage` (Redis is
  down) and `LocalDeliveryMissesOthers` (a local socket keeps the message from other workers).
- A broadcast to a boolean recipient is dropped, and one to a number never is: `BroadcastForwarded`.
- The scan sees one block at a time, so it misses exactly the occurrences that cross a block boundary:
  `CleanBlocksMeaning`. Input: `StraddlingAccepted`.
- A listing's order is not decided by the request if and only if two rows tie in the sort column: `ListingDecidedIff`.
  Input, for every listing with such a tie across its first page boundary: `TieAcrossPagesRepeats`.

## Model

| member | source | states |
|---|---|---|
| `AccountInvariants.StepKeepsInv` | app/api/oauth.py:91-196 | every handler keeps the invariants: emails unique, identities unique, every link and role assignment names a user, every user has a password or a link, jtis unique, marks outlast their token but for its last second, OAuth states hold what the server wrote |
| `AccountInvariants.RunKeepsInv` | app/api/oauth.py:217-246 | those invariants hold in every state of every run from an empty deployment, with any interleaving of all handlers |
| `AccountInvariants.LinkRemoved` | app/api/oauth.py:230-246 | unlinking leaves the user a password or another link, also when several links of one provider match |
| `AccountInvariants.LinkedUserAdded` | app/api/oauth.py:160-181 | creating a user and its link together keeps the invariants although the user has no password |
| `AccountInvariants.UsersDeleted` | app/tasks/cleanup.py:24-37 | deleting any set of users with their dependent rows keeps the invariants |
| `AccountInvariants.DeletingComposes` | app/tasks/cleanup.py:34-35 | deleting two sets of users one after the other is deleting their union |
| `AccountInvariants.MarkOutlasts` | app/auth/jwt.py:130-131 | a mark written with the truncated lifetime ends after `exp` minus one second and not after `exp` |
| `AccountInvariants.TokenMarked` | app/services/token_blacklist.py:7-26 | marking an issued token, also one marked before, keeps every mark outlasting its token but for its last second |
| `AccountInvariants.CallbackKeepsInv` | app/api/oauth.py:101-181 | the callback keeps the invariants in every branch: existing link, same email, new user, linking, provider failure |
| `AccountInvariants.RegisterKeepsInv` | app/api/auth.py:70-112 | registering keeps email uniqueness by its own check, and the other invariants |
| `AccountInvariants.UpdateEmailKeepsInv` | app/services/user_profile.py:13-35 | changing an email keeps email uniqueness by its own check, and the other invariants |
| `AccountRuns.RunGrows` | app/services/token_blacklist.py:7-26 | in every run time, issued tokens and drawn values only grow and no mark ever disappears from Redis |
| `AccountRuns.LogoutRevokesAccess` | app/api/auth.py:200-230 | after a successful logout the access token is refused over HTTP and WebSockets in every later state up to one second before expiry, whatever happens in between, and a request presenting it changes nothing |
| `AccountRuns.LogoutRevokesRefresh` | app/api/auth.py:165-228 | so is the valid refresh token the logout named, when refreshing |
| `AccountRuns.LogoutEffectiveIff` | app/auth/jwt.py:130-131 | an accepted access token is refused right after its logout if and only if it had a second or more to live, and at every later instant if and only if that was a whole number of seconds |
| `AccountRuns.TokenSpentOnce` | app/api/auth.py:265-390 | in every run one reset token sets a password at most once and one verification token verifies at most once up to one second before expiry, also if an administrator withdraws the verification in between |
| `AccountRuns.ResetAgainIff` | app/api/auth.py:342-390 | after a reset the same token sets another password right away if and only if it had less than a second to live, and at no later instant if and only if it had a whole number of seconds, at least one |
| `AccountTokens.RunHoldsMarks` | app/services/token_blacklist.py:7-26 | in every run Redis holds exactly the marks the requests have written, each with the deadline last written |
| `AccountTokens.AccessAcceptedIff` | app/auth/dependencies.py:16-53 | in every run an access token acts for a user if and only if it decodes, the last logout that marked it did so until not later than now, and the user is active and has its subject as email now |
| `AccountTokens.RefreshAcceptedIff` | app/api/auth.py:165-193 | the same for refreshing |
| `AccountTokens.ResetSucceedsIff` | app/api/auth.py:327-393 | in every run a reset succeeds if and only if its token decodes, no use marked it until later than now, its user is active, and the password is not the one last set |
| `AccountTokens.VerificationSucceedsIff` | app/api/auth.py:236-289 | in every run a verification token verifies if and only if it decodes, no use marked it until later than now, and its user is unverified |
| `AccountTokens.MarkedForGoodIff` | app/services/token_blacklist.py:14-26 | in every run a mark covers the rest of a token's life if and only if the deadline last written reaches its end |
| `AccountTokens.WholeSecondsCover` | app/auth/jwt.py:130-131 | without grace a mark written with a second or more to go reaches the token's expiry if and only if a whole number of seconds was left |
| `AccountTokens.LogoutLastsIff` | app/api/auth.py:200-230 | in every later state of every run a logged-out token is revoked exactly until the deadline of the last logout that marked it, and for good if and only if that logout came a whole number of seconds before expiry |
| `AccountTokens.UseLastsIff` | app/api/auth.py:265-390 | the same for the use of a reset or verification token |
| `AccountTokens.LoggedOutTokenReturns` | app/auth/jwt.py:130-131 | logged out 1.5 seconds before expiry, a token is accepted again a second later |
| `AccountTokens.SpentTokenReturns` | app/api/auth.py:386-390 | used 1.5 seconds before expiry, a reset token sets another password a second later |
| `AccountTokens.RepeatedLogoutReopens` | app/services/token_blacklist.py:7-11 | a repeated logout shortens a revocation that was for good |
| `AccountTokens.StaysFreeIff` | app/services/user_profile.py:13-35 | an email nobody has is given to a user exactly by a successful registration, email change or sign-in callback for it |
| `AccountTokens.OldEmailRetiredUntilTaken` | app/services/user_profile.py:13-35 | in every run, after an email change and until a request gives the old email to some user, tokens naming it act for nobody and it cannot be used to log in |
| `AccountTokens.OldTokenActsForNewOwner` | app/auth/dependencies.py:37-39 | when another user takes a former email over, the former owner's unexpired token acts for the new owner |
| `AccountRuns.SubjectsParse` | app/api/auth.py:248-251 | the subject of a verification or reset token that decodes is the decimal text of an id the server has drawn, so reading it as a number never fails |
| `AccountOutcomes.RegisterSucceedsIff` | app/api/auth.py:74-84 | registration succeeds if and only if nobody has the email in lower case |
| `AccountOutcomes.LowerMeansNoCase` | app/api/auth.py:74-74 | two emails are the same in lower case if and only if they differ at most in the case of letters |
| `AccountOutcomes.CaseDoesNotMatter` | app/api/auth.py:74-301 | registration, login and the request for a reset answer alike however an email is capitalised |
| `AccountOutcomes.UpdateEmailSucceedsIff` | app/services/user_profile.py:13-35 | an email change succeeds if and only if no other user has the email in lower case |
| `AccountOutcomes.ChangePasswordSucceedsIff` | app/services/user_profile.py:38-65 | a password change succeeds if and only if the current password is the stored one and the new one is another; a wrong one changes nothing |
| `AccountOutcomes.AdminSucceedsIff` | app/api/admin.py:85-204 | each administrative request succeeds if and only if the caller is granted its permission and its user and role exist |
| `AccountOutcomes.PermittedIff` | app/core/rbac.py:55-68 | a caller passes a permission check if and only if each required permission is carried by some role held |
| `AccountOutcomes.InRolesIff` | app/core/rbac.py:37-46 | a caller passes a role check if and only if one of the roles is held |
| `AccountOutcomes.StartSucceedsIff` | app/api/oauth.py:29-83 | a sign-in or linking starts if and only if the provider is one of the three and configured, and for a linking the caller is accepted |
| `AccountOutcomes.CallbackStages` | app/api/oauth.py:99-113 | which callbacks fail for their provider, for their state and for the exchange, exactly |
| `AccountOutcomes.SignInCallbackIff` | app/api/oauth.py:150-187 | a sign-in callback gives tokens if and only if the identity is linked to an active user, or to nobody and comes with an email no inactive user has |
| `AccountOutcomes.UnlinkSucceedsIff` | app/api/oauth.py:217-246 | unlinking succeeds if and only if the caller has such a link and keeps a password or another link |
| `AccountOutcomes.RefusalsChangeNothing` | app/api/auth.py:74-393 | a refused request changes nothing; a refused callback at most uses up its state and links an inactive user |
| `AccountJourneys.LoginTokensWork` | app/api/auth.py:149-159 | after a login the access token acts for the user with that email, over HTTP and WebSockets, and the refresh token is exchanged for access tokens that do, until the last second of their lifetimes |
| `AccountJourneys.CallbackTokensWork` | app/api/oauth.py:150-196 | the same for the tokens of a sign-in callback |
| `AccountJourneys.LinkingTokensWork` | app/api/oauth.py:127-196 | the same for a linking callback whose user is active |
| `AccountJourneys.RefreshedWorks` | app/api/auth.py:165-193 | a refresh token that decodes, is not revoked and names an active user brings an access token that works |
| `AccountJourneys.LifetimesHold` | app/auth/jwt.py:20-121 | every token decodes for its type's lifetime but its last second, and not beyond it and the grace |
| `AccountJourneys.TypesDoNotMix` | app/auth/jwt.py:62-91 | no request accepts a token of another type |
| `AccountJourneys.RegisterVerifyLogin` | app/api/auth.py:70-289 | a new user cannot log in before verifying; the token registration hands out verifies for thirty minutes but a second, and then login with the registered email and password succeeds |
| `AccountJourneys.VerificationVerifies` | app/api/auth.py:276-287 | a successful verification turns its user's flag on, marks its token and changes nothing else |
| `AccountJourneys.ForgotResetLogin` | app/api/auth.py:296-390 | an active user who asks gets a token that sets a new password for fifteen minutes but a second; then login takes the new password and no other |
| `AccountJourneys.StateLastsTenMinutes` | app/api/oauth.py:48-109 | a callback fails for its state if and only if ten minutes have passed since the sign-in was started |
| `AccountJourneys.LinkStateLastsTenMinutes` | app/api/oauth.py:65-109 | the same for a linking |
| `AccountJourneys.NewcomerSignsIn` | app/api/oauth.py:150-196 | a newcomer's sign-in creates an account with the identity's email, and every later sign-in with that identity is the same account, whatever email comes with it |
| `AccountJourneys.LinkedSignsIn` | app/api/oauth.py:127-187 | once linked, the identity signs its user in |
| `AccountRuns.RefusedCallerChangesNothing` | app/auth/dependencies.py:16-53 | a request whose access token is refused changes nothing and answers with the refusal of the token check |
| `AccountHistory.RunStores` | app/api/auth.py:370-381 | in every run the stored hash is of the password last set by register, reset or change, and absent if none was set |
| `AccountHistory.LoginMatchesLastSet` | app/api/auth.py:120-159 | login succeeds if and only if some verified, active user has that email and the password is the one last set in the history of requests |
| `AccountLedger.RunRecords` | app/models/user.py:10-54 | in every run a user exists, and has an email, password, active flag, verified flag and time of creation, exactly as the requests and their outcomes say: registration starts unverified and active, a callback creates verified and active, verification, reset, changes, deactivation and the administrator's routes set what they should and nothing else, and the cleanup removes who is unverified for seven days |
| `AccountLedger.StepRecords` | app/api/auth.py:70-390 | one request changes a user's row as its outcome says, and no other row |
| `AccountLedger.LoginMatchesHistory` | app/api/auth.py:120-159 | login succeeds if and only if the history of requests leaves a user with that email and password who is verified and active |
| `AccountLedger.RunHoldsRoles` | app/api/admin.py:145-204 | in every run users hold exactly the roles that registration, administrators and the operator gave them and nobody took away |
| `AccountLedger.RunLinks` | app/api/oauth.py:120-248 | in every run the links are exactly those that callbacks added, to the right user and identity, and no unlinking or cleanup removed |
| `AccountHistory.NewPasswordDiffers` | app/services/user_profile.py:41-62 | a successful reset or change replaces the password last set by a different one |
| `AccountHistory.StateConsumedOnce` | app/api/oauth.py:101-118 | in every run each OAuth state is consumed by at most one callback |
| `AccountHistory.StateOrigin` | app/api/oauth.py:54-78 | every OAuth state in Redis was written by an earlier sign-in or linking request of the run and holds what that request wrote |
| `AccountHistory.LinkingActsForItsStarter` | app/api/oauth.py:111-153 | a callback that finishes a linking was started by an authenticated request of that very user; it creates no account and adds links to that user only |
| `AccountHistory.LinkKept` | app/api/oauth.py:212-248 | in every run a link keeps its user and identity until it is unlinked or its user is cleaned up |
| `AccountHistory.IdentityResolves` | app/api/oauth.py:120-196 | while a link stands, every successful callback for its identity signs in the linked user and changes no user and no link |
| `AccountHistory.RolesComeFromManagers` | app/api/admin.py:145-178 | a user gains a role only by registering, from a caller permitted `roles:manage`, or from the operator |
| `AccountHistory.CleanupRemovesExactly` | app/tasks/cleanup.py:18-37 | exactly the unverified users older than the cutoff go, with their links and roles; everybody else keeps row, links and roles |
| `AccountHistory.CleanupCounts` | app/tasks/cleanup.py:39-39 | the reported count is the drop in user rows |
| `AccountHistory.CleanupComposes` | app/tasks/cleanup.py:13-41 | cleaning up at a cutoff and then at a later one leaves the state of cleaning up once at the later, and the counts add up |
| `AccountAccess.StatusChangesAreAuthorized` | app/api/admin.py:85-128 | a user's active or verified flag changes only by a valid verification token made for that user, by the user, or by a caller with the route's permission |
| `AccountAccess.DeactivatedIsLockedOut` | app/auth/dependencies.py:47-51 | in every run, until an administrator reactivates the account, no access token acts for a deactivated user, login and refresh give nothing, no reset token is mailed and none works |
| `AccountAccess.SignInCallbackNeedsActive` | app/api/oauth.py:154-187 | a sign-in callback gives tokens to active users only |
| `AccountAccess.LinkingSignsInIff` | app/api/oauth.py:127-149 | a linking callback gives tokens if and only if the user exists and nobody else has the identity, active or not |
| `AccountAccess.InactiveUserGetsTokens` | app/api/oauth.py:65-149 | a user who starts a linking, deactivates the account and finishes the linking is given issued tokens while inactive |
| `AccountAccess.RoleChangesTakeEffect` | app/core/rbac.py:31-46 | assigning a role opens that role's check to its holder at once, and revoking it shuts the check |
| `AccountAccess.NoManagersStep` | app/api/admin.py:145-178 | while nobody holds a role that can grant roles, no request gives one to anybody |
| `AccountAccess.ManagersComeFromTheOperator` | README.md:149-156 | in every run in which the operator grants no role carrying `roles:manage`, nobody ever holds one and every request to assign or revoke a role is refused |
| `AccountAccess.OnlyAdminManages` | app/core/rbac.py:22-26 | of the seeded roles `admin` alone can grant roles |
| `AccountAccess.AdminsArePermitted` | app/core/rbac.py:55-68 | after seeding any database a user with the role `admin` passes every permission check the routes make |
| `AccountAccess.EmailChangeRetiresOldEmail` | app/services/user_profile.py:13-35 | in the state an email change leads to, tokens naming the old email act for nobody and it cannot be used to log in; later states are `AccountTokens.OldEmailRetiredUntilTaken` |
| `Accounts.KeyTextInjective` | app/services/token_blacklist.py:3-4 | blacklist, used and state keys never share a Redis key |
| `Accounts.LinkStateRoundTrip` | app/api/oauth.py:74-118 | a linking state is read back as the user it was made for, and a sign-in state as no user |
| `Accounts.CurrentUserWs` | app/auth/dependencies.py:56-80 | the WebSocket check admits exactly the tokens, and the users, the HTTP check admits |
| `AccountService.Backend.BlacklistToken` | app/services/token_blacklist.py:7-11 | writes the entry with its deadline, or nothing for a lifetime of zero |
| `AccountService.Backend.MarkTokenUsed` | app/services/token_blacklist.py:18-22 | the same for the used mark |
| `AccountService.Backend.CreateToken` | app/auth/jwt.py:20-39 | the new token's type, subject, jti and whole-second expiry, and its being issued |
| `AccountService.Backend.DecodeToken` | app/auth/jwt.py:62-91 | claims exactly for issued, unexpired tokens of the expected type |
| `AccountService.Backend.CurrentUser` | app/auth/dependencies.py:16-53 | the caller or the first refusal, as the function the properties are about |
| `AccountService.Backend.RequirePermissions` | app/core/rbac.py:49-68 | the caller if all required permissions are held, else the refusal |
| `AccountService.Backend.RequireRoles` | app/core/rbac.py:31-46 | the caller if any of the allowed roles is held, else the refusal |
| `AccountService.Backend.RegisterUser` | app/api/auth.py:70-112 | the whole new state and outcome are those of the function the properties are about |
| `AccountService.Backend.LoginUser` | app/api/auth.py:120-159 | likewise for login |
| `AccountService.Backend.RefreshAccessToken` | app/api/auth.py:165-193 | likewise for refresh |
| `AccountService.Backend.Logout` | app/api/auth.py:200-230 | likewise for logout |
| `AccountService.Backend.VerifyEmail` | app/api/auth.py:236-289 | likewise for email verification |
| `AccountService.Backend.ForgotPassword` | app/api/auth.py:296-320 | likewise for requesting a reset |
| `AccountService.Backend.ResetPassword` | app/api/auth.py:327-393 | likewise for the reset |
| `AccountService.Backend.UpdateUserEmail` | app/services/user_profile.py:13-35 | likewise for changing the email |
| `AccountService.Backend.ChangeUserPassword` | app/services/user_profile.py:38-65 | likewise for changing the password |
| `AccountService.Backend.DeactivateSelf` | app/services/user_profile.py:68-72 | likewise for deactivating oneself |
| `AccountService.Backend.UpdateUserStatus` | app/api/admin.py:85-107 | likewise for the administrator's status change |
| `AccountService.Backend.DeactivateUser` | app/api/admin.py:115-128 | likewise for the administrator's deactivation |
| `AccountService.Backend.AssignRole` | app/api/admin.py:145-178 | likewise for assigning a role; one already held changes nothing |
| `AccountService.Backend.RevokeRole` | app/api/admin.py:186-204 | likewise for revoking a role |
| `AccountService.Backend.OAuthLogin` | app/api/oauth.py:48-61 | likewise for starting a sign-in |
| `AccountService.Backend.OAuthLink` | app/api/oauth.py:65-83 | likewise for starting a linking |
| `AccountService.Backend.OAuthCallback` | app/api/oauth.py:91-196 | likewise for the callback |
| `AccountService.Backend.CompleteLinking` | app/api/oauth.py:127-149 | likewise for its linking branch |
| `AccountService.Backend.CompleteLogin` | app/api/oauth.py:150-196 | likewise for its sign-in branch |
| `AccountService.Backend.UnlinkProvider` | app/api/oauth.py:212-248 | likewise for unlinking, with whichever matching link the database returns |
| `AccountService.Backend.CleanupUnverifiedUsers` | app/tasks/cleanup.py:13-41 | the loop over stale users leaves the state of deleting them at once, and reports how many there were |
| `RateLimit.KeysDistinct` | app/services/rate_limit.py:23-24 | unless one scope with its colon begins the other, two (scope, host) pairs share a key if and only if they are equal |
| `RateLimit.ScopesShareKeyIff` | app/services/rate_limit.py:23-24 | two scopes share a key for some hosts if and only if one of them with its colon begins the other |
| `RateLimit.ColonFreeScopes` | app/services/rate_limit.py:23-24 | colon-free scopes do so only if they are equal |
| `RateLimit.RoutesPrefixFree` | app/api/auth.py:68-294 | no two of the routes' limiters can share a key |
| `RateLimit.ColonScopesCollide` | app/services/rate_limit.py:23-24 | an input of `ScopesShareKeyIff`: two different pairs with one key |
| `RateLimit.RedisCounters.Incr` | app/services/rate_limit.py:26-26 | one more on a live counter, keeping its deadline; a missing one starts at 1 without deadline |
| `RateLimit.RedisCounters.Expire` | app/services/rate_limit.py:28-29 | sets the deadline of a live counter, and nothing otherwise |
| `RateLimit.RateLimiter.Call` | app/services/rate_limit.py:18-35 | the call counts one more under "ratelimit:", scope and the client's own address, with a deadline `seconds` away if it is the first, touches no other key, and allows if and only if the count is at most `times`; it is one INCR step, one EXPIRE step if the count is 1, and the comparison |
| `RateLimitClients.AddressesCountSeparately` | app/services/rate_limit.py:23-29 | a request from one address is counted under that address and leaves every other address's counter as it was |
| `RateLimitClients.HitsAreAnswers` | app/services/rate_limit.py:23-26 | in every interleaving the hits under a client's key are the answers to that client's own requests and to no other's |
| `RateLimitClients.ClientAdmittedPerWindow` | app/services/rate_limit.py:18-35 | the window bound, for the requests of each client |
| `RateLimitClients.ClientRefusalJustifiedIff` | app/services/rate_limit.py:26-35 | a refused request is preceded by `times` admitted requests of that very client within `seconds` if and only if its counter is younger than that |
| `RateLimitClients.FirstRequestsAdmitted` | app/services/rate_limit.py:31-35 | the first `times` requests of a client are admitted whatever other clients do |
| `RateLimitWindow.RunInvariant` | app/services/rate_limit.py:26-29 | in every interleaving a counter without deadline has exactly one request pending its EXPIRE, and consecutive counters of a client are created at least one period apart |
| `RateLimitWindow.LifetimeCounts` | app/services/rate_limit.py:26-26 | the requests a counter answers get the counts 1, 2, 3, ... |
| `RateLimitWindow.WindowBound` | app/services/rate_limit.py:31-35 | counters created a period apart admit fewer than `(m + 1) * times` requests in any window of `m` periods |
| `RateLimitWindow.AdmittedPerWindow` | app/services/rate_limit.py:18-35 | over every interleaving of all requests, for limiters that share no key, any half-open window of `m * seconds` admits at most `(m + 1) * times - 1` requests per host, and none if `times` is not positive |
| `RateLimitTight.WindowBoundReached` | app/services/rate_limit.py:18-35 | for every positive limit, period and `m` a run exists that admits `(m + 1) * times - 1`, so the bound is exact |
| `RateLimitWindow.LifetimeAdmitsFirst` | app/services/rate_limit.py:31-35 | in every interleaving a counter admits exactly the first `times` of the requests it answers |
| `RateLimitWindow.RefusalJustifiedIff` | app/services/rate_limit.py:26-35 | in every interleaving a refused request has `times` admitted requests of its client in the preceding `seconds` if and only if the counter that refused it was created within them |
| `RateLimitWindow.RefusedOnlyWhenFull` | app/services/rate_limit.py:26-35 | so every refusal is justified when each EXPIRE follows its INCR at once |
| `RateLimitTight.DelayedExpireRefuses` | app/services/rate_limit.py:26-35 | for every positive limit and period a run exists that refuses a request although its client had none admitted for a whole period: the other case of `RefusalJustifiedIff` |
| `Decimal.ParseIntText` | app/services/pagination.py:81-87 | reading back the decimal text of an integer gives that integer |
| `Decimal.NatTextParse` | app/services/pagination.py:81-87 | digits without a leading zero are the text of the number they are read as |
| `Base64.DecodeEncode` | app/services/pagination.py:81-87 | decoding undoes padded URL-safe Base64 encoding, for every byte string |
| `Base64.EncodeShape` | app/services/pagination.py:81-82 | encoded text has four symbols per group of three bytes, from the URL-safe alphabet and the pad character |
| `Base64.SymbolTable` | app/services/pagination.py:81-82 | the alphabet is that of Table 2 of RFC 4648, in order |
| `Base64.SameBits` | app/services/pagination.py:81-82 | the symbols of three bytes are the same 24 bits, most significant first |
| `Base64.PaddedBits` | app/services/pagination.py:81-82 | one and two bytes are encoded as with zeros after them, cut and padded |
| `Pagination.CursorRoundTrip` | app/services/pagination.py:81-89 | decoding the cursor of any integer gives that integer |
| `Pagination.DistinctCursors` | app/services/pagination.py:81-82 | distinct ids have distinct cursors |
| `Pagination.RowsSound` | app/services/pagination.py:113-117 | the selected rows match, lie above the cursor and come in strictly increasing id order |
| `Pagination.RowsComplete` | app/services/pagination.py:113-117 | no matching row above the cursor is missing and none occurs twice |
| `Pagination.RowsAfter` | app/services/pagination.py:113-115 | selecting above the id of a row leaves exactly the rows after it |
| `Pagination.PageSplitsRemaining` | app/services/pagination.py:117-125 | a page is the first `limit` remaining rows; it has a successor if and only if more remain, and exactly those follow |
| `Pagination.PaginateCursorDecoded` | app/services/pagination.py:107-125 | a page asked for by cursor is the page after the decoded id, and its next cursor decodes to that page's next id |
| `Pagination.InvalidCursorRefused` | app/services/pagination.py:85-114 | a page is refused if and only if its cursor does not decode |
| `Pagination.HandedOutCursorContinues` | app/services/pagination.py:113-123 | a cursor that a page hands out is never refused on any later table, and continues right after that page's last row |
| `CursorWalk.WalkIncreasing` | app/services/pagination.py:107-125 | whatever happens to the table between pages, a walk returns strictly increasing ids above its start |
| `CursorWalk.WalkComplete` | app/services/pagination.py:113-125 | a finished walk has returned every row that matched throughout, also if a cursor's own row was deleted |
| `CursorWalk.WalkExactlyOnce` | app/services/pagination.py:107-125 | in a finished walk from the start such a row occurs at exactly one position |
| `CursorWalk.WalkSound` | app/services/pagination.py:113-119 | each row of a page matched in the table of that moment and carries its data |
| `CursorWalk.WalkOfUnchangingTable` | app/services/pagination.py:117-125 | on an unchanging table the pages joined are the full ordered list, in exactly the counted number of pages, and the walk is finished |
| `CursorWalk.PageCountIsCeiling` | app/services/pagination.py:118-123 | that number is `max(1, ceil(n / limit))` |
| `CursorWalk.OffsetHasMore` | app/services/pagination.py:62-78 | `has_more` is set if and only if a row lies beyond the page, and the page holds the rows at its offset |
| `CursorWalk.OffsetPagesItems` | app/services/pagination.py:62-78 | the offset pages joined are the listing from the offset on |
| `CursorWalk.OffsetPagesLength` | app/services/pagination.py:62-78 | their number is the one counted for cursor pages |
| `CursorWalk.OrderingHoldsTheRows` | app/services/pagination.py:35-44 | a listing ordered by any column holds exactly the rows a cursor walk returns |
| `CursorWalk.OffsetAndCursorAgree` | app/services/pagination.py:62-125 | offset pages by any column hold, each once, the rows of the cursor walk |
| `CursorWalk.OffsetByIdEqualsCursor` | app/services/pagination.py:39-125 | ordered by id, offset pages and cursor pages are the same sequence |
| `Listing.EveryListingHoldsTheRows` | app/services/pagination.py:35-78 | whatever column and direction a client asks for, the offset pages hold exactly the rows of a cursor walk, each once |
| `Listing.ListingPage` | app/services/pagination.py:62-78 | a page counts all matching rows whatever page is asked for, repeats limit and offset, and holds as many rows from the offset on as there are, up to the limit |
| `Listing.RefusedColumnFallsBackToId` | app/services/pagination.py:42-44 | asked to sort by a column that is not allowed, an ascending listing is the very sequence of a cursor walk |
| `Listing.ListingDecidedIff` | app/services/pagination.py:42-44 | the request decides the order of its rows if and only if no two of them tie in the sort column |
| `Listing.TieAcrossPagesRepeats` | app/services/pagination.py:44-78 | a tie across a page boundary lets two pages show one row twice and hide its neighbour although the table does not change |
| `WebSockets.ConnectionManager.Connect` | app/services/connection_manager.py:19-21 | the socket is added to the user's set, and no user is listed without a socket |
| `WebSockets.ConnectionManager.Disconnect` | app/services/connection_manager.py:23-29 | the socket goes, and the user's entry with its last socket |
| `WebSockets.ConnectionManager.SendLocal` | app/services/connection_manager.py:31-39 | each of the user's sockets here gets one copy and nobody else does; the result says whether there was one |
| `WebSockets.ConnectionManager.IsConnectedLocally` | app/services/connection_manager.py:41-45 | whether the user has a socket on this worker |
| `WebSockets.BracketLeavesNoTrace` | app/api/websocket.py:34-64 | connecting a new socket and disconnecting it restores the table |
| `WebSockets.ChannelRoundTrip` | app/services/ws_pubsub.py:35-71 | the listener reads from a channel name the user the publisher wrote into it if the recipient is a number, and nobody if it is a boolean |
| `WebSockets.BroadcastForwarded` | app/services/ws_pubsub.py:62-78 | so a broadcast reaches a worker's sockets of the recipient if that is a number and is dropped if it is a boolean |
| `WebSockets.PublishToUser` | app/services/ws_pubsub.py:17-46 | local copies if there is a local socket; otherwise one broadcast, or none without Redis |
| `WebSockets.ListenTo` | app/services/ws_pubsub.py:62-78 | the listener forwards each well-formed message to the user's local sockets and skips the rest |
| `WebSockets.WebsocketEndpoint` | app/api/websocket.py:33-64 | all frames of a connection have their effect in order and the connection table ends as it was; what that effect is, `WebSocketTraffic` says |
| `WebSockets.ErrorsAreAnswered` | app/api/websocket.py:40-56 | each faulty frame, and no other, is answered on its own socket with its own error, and no other socket gets one |
| `WebSocketTraffic.MessagesDelivered` | app/api/websocket.py:37-60 | over any frames each socket the recipient has on the worker gets exactly one copy of a body per frame that sends that body to that user, marked with the sender |
| `WebSocketTraffic.MessagesPublished` | app/services/ws_pubsub.py:29-39 | if the recipient has no local socket and Redis answers, exactly one publication per such frame goes out on "ws:user:" and the recipient's number, otherwise none |
| `WebSocketTraffic.NothingElseSent` | app/api/websocket.py:37-60 | frames write no other message to any socket but error replies |
| `WebSocketTraffic.PublishedInOrder` | app/api/websocket.py:57-60 | earlier publications are neither moved nor removed |
| `WebSocketTraffic.InterpretFault` | app/api/websocket.py:40-55 | which frames are answered with which error, by their fields |
| `WebSocketTraffic.ListenerDelivers` | app/services/ws_pubsub.py:62-78 | each socket the user has on the listener's worker gets one copy per item that carries a message for the user |
| `WebSocketTraffic.ConnectedSockets` | app/services/connection_manager.py:19-21 | connecting adds one socket to one user and changes nobody else's |
| `WebSocketTraffic.DisconnectedSockets` | app/services/connection_manager.py:23-29 | disconnecting takes that socket from that user and changes nobody else's |
| `Delivery.PublishStepIsPublishToUser` | app/services/ws_pubsub.py:17-46 | a publishing step of the many-worker model writes and queues what the publisher writes and publishes |
| `Delivery.ConsumeStepIsListener` | app/services/ws_pubsub.py:62-78 | a consuming step of it writes what the listener writes |
| `Delivery.RunInvariant` | app/services/ws_pubsub.py:29-78 | in every run of any number of workers a delivered message is no longer queued where its socket lives, and sockets are listed at home only |
| `Delivery.AtMostOnce` | app/services/ws_pubsub.py:29-40 | no socket ever gets a message twice, also when listeners fail and restart |
| `Delivery.OnlyTheAddressee` | app/services/ws_pubsub.py:62-78 | a message reaches only sockets of the user it was published for |
| `Delivery.LocalDelivery` | app/services/ws_pubsub.py:29-31 | with a local socket all local ones get the message and nothing is broadcast |
| `Delivery.QueuedUntilConsumed` | app/services/ws_pubsub.py:62-65 | a broadcast stays in a live listener's queue until that worker takes it |
| `Delivery.BroadcastDelivery` | app/services/ws_pubsub.py:33-78 | a message without a local socket is still queued at a subscribed worker, or has reached exactly once each of the user's sockets that stayed connected there |
| `Delivery.DeliveredIff` | app/services/ws_pubsub.py:29-78 | in every run, of the user's sockets that stay connected at a live worker with nothing of it queued, exactly those get a message that live at the publisher's worker if it has any, else those at workers subscribed at publication if Redis answered |
| `Delivery.UnreachedMissForever` | app/services/ws_pubsub.py:29-46 | a worker that a publication does not reach never queues it and its sockets never get it, in any later state |
| `Delivery.UnreachableRedisDrops` | app/services/ws_pubsub.py:41-46 | published without Redis and without a local socket, a message is lost: in every later state of every run no socket has it and no queue holds it |
| `Delivery.LostMessage` | app/services/ws_pubsub.py:41-46 | a run in which the addressee is connected at another worker and misses the message |
| `Delivery.LocalDeliveryMissesOthers` | app/services/ws_pubsub.py:29-31 | a run in which a local socket keeps the message from the addressee's socket at another worker |
| `FileValidation.HeadDecidesSignature` | app/services/file_validation.py:14-53 | every signature check answers on the first 32 bytes as on the whole content |
| `FileValidation.HeadIndependentOfChunks` | app/services/file_validation.py:128-129 | however content is cut into chunks, the collected head is its first 32 bytes, or all of it |
| `FileValidation.VerdictUnique` | app/services/file_validation.py:101-150 | the whole-file specification allows no file two verdicts |
| `FileValidation.VerdictExists` | app/services/file_validation.py:101-150 | it gives every file one |
| `FileValidation.AcceptedSize` | app/services/file_validation.py:116-137 | accepted content has at least 1 byte and at most the category's limit |
| `FileValidation.CleanBlocksMeaning` | app/services/virus_scan.py:8-17 | no block contains the test signature if and only if every occurrence in the file crosses a block boundary |
| `FileValidation.StraddlingAccepted` | app/services/virus_scan.py:8-17 | a concrete file that contains the signature and is accepted |
| `UploadRules.CategoryBytes` | app/services/file_validation.py:14-96 | which leading bytes each category takes: JPEG, PNG, GIF and WebP as image, "%PDF-" as pdf, the four box types and EBML as video, any as csv |
| `UploadRules.ContentAcceptedIff` | app/services/file_validation.py:57-150 | content is accepted if and only if it has 1 byte to the category's 10, 20 or 200 MiB, the test signature at most across 1 MiB boundaries, and the leading bytes of one of the category's formats |
| `UploadRules.JpegIsAnImage` | app/services/file_validation.py:14-15 | a JPEG is never turned away as an image for its bytes and never taken for a video |
| `UploadRules.CategoryTypes` | app/services/file_validation.py:66-98 | which content types each category takes |
| `UploadRules.UploadAcceptedIff` | app/api/files.py:45-75 | an upload is accepted if and only if storage is configured, the type fits the category, the content is accepted, and a CSV's sample parses |
| `UploadRules.UploadStores` | app/api/files.py:77-93 | an accepted upload stores the whole content under the row's key and the request's data in the row, and touches nothing else |
| `UploadRules.RefusedUploadStoresNothing` | app/api/files.py:52-75 | a refused one stores nothing |
| `UploadRules.DeleteIff` | app/api/files.py:132-153 | only the owner deletes a file; to anybody else it does not exist and nothing changes |
| `UploadRules.KeyHasThreeParts` | app/services/storage.py:31-33 | a file name never adds a level to an object's key |
| `FileValidation.ReadAndValidateStream` | app/services/file_validation.py:101-150 | the chunk loop returns the whole-file verdict for content of any length; success rewinds, and a refusal has read at most the limit plus one block |
| `FileValidation.ValidateCsvContent` | app/services/file_validation.py:153-182 | the verdict depends on the first 8192 bytes only, and the upload is rewound also on refusal |
| `Files.ObjectKeysDistinct` | app/services/storage.py:31-33 | equal object keys come from equal category, user and uuid, whatever the file names |
| `Files.RunKeepsInv` | app/api/files.py:45-153 | in every run rows name existing users and accepted objects of their size, and keys are not shared |
| `Files.RowsHaveObjects` | app/api/files.py:69-93 | every reachable row has a stored object of exactly its size, within 1 and the category's limit, free of the signature in every block, that no other row refers to |
| `Files.DeleteRemovesExactly` | app/api/files.py:132-153 | deleting a file takes its row and object and leaves every other row with its object |
| `Files.FileService.Upload` | app/api/files.py:45-93 | all refusals in order, or the new row and the whole content stored under a new key |
| `Files.FileService.Delete` | app/api/files.py:132-153 | refused for others' files before anything else, otherwise row and object go |
| `Rbac.SeedRbacDefaults` | app/core/rbac.py:79-111 | on any database the loops never miss a permission and leave its seeded form |
| `Rbac.DefaultsConsistent` | app/core/rbac.py:9-26 | every grant of a default role names a default permission |
| `Rbac.EnsurePermissions` | app/core/rbac.py:80-91 | missing default permissions are inserted, existing ones kept, and all are found by name afterwards |
| `Rbac.EnsureRoles` | app/core/rbac.py:93-109 | missing default roles are inserted and every default role gains the grants it lacks |
| `Rbac.GrantMissing` | app/core/rbac.py:104-109 | the inner loop ends with the role's grants united with the wanted ones, every other role as it was |
| `Rbac.SeedingIdempotent` | app/core/rbac.py:79-111 | seeding twice is seeding once |
| `Rbac.SeedingEstablishesDefaults` | app/core/rbac.py:79-111 | every default permission, role and grant exists afterwards |
| `Rbac.SeedingPreserves` | app/core/rbac.py:79-111 | custom rows, descriptions and grants survive and custom roles are unchanged |
| `Rbac.SeedingAddsExactly` | app/core/rbac.py:79-111 | the rows and grants after seeding are those of before and the default ones, and no others |
| `Rbac.SeedingKeepsAccess` | app/core/rbac.py:55-68 | whoever passed a permission check before seeding passes it afterwards |
| `Rbac.SeedingEqualsMigrationPermissions` | migrations/versions/49f933ee3842_add_rbac_tables.py:27-33 | from empty tables seeding gives exactly the migration's permissions and descriptions |
| `Rbac.SeedingEqualsMigrationRoles` | migrations/versions/49f933ee3842_add_rbac_tables.py:34-39 | ... and exactly its roles and descriptions |
| `Rbac.SeedingEqualsMigrationGrants` | migrations/versions/49f933ee3842_add_rbac_tables.py:119-144 | ... and exactly its role-permission relation |

## Left out

- FastAPI routing, mounts, middleware, headers, logging, metrics, SMTP, Celery, nginx and Docker: plumbing.
- JWT signing, Argon2, Authlib and boto3: replaced by the assumptions above.
- Configuration validators and password strength checks: each is one branch.
- Base64.Decode: Python's Base64 decoder also skips foreign characters and accepts excess padding; the model refuses both. Cursors the service hands out never contain either.
- Decimal.ParseInt: Python's `int` also accepts spaces, underscores, a plus sign and other digits; the model refuses them. The service reads back only text it wrote.
- DecodeCursor: refuses the foreign texts that `Base64.Decode` and `Decimal.ParseInt` refuse, and text that is not ASCII.
- Lower: maps ASCII letters only, not the rest of Unicode.
- LinkingUser: a state value `link:` followed by no number is taken as a sign-in, where the program would fail; `StatesInv` shows that Redis never holds one.
- RegisterUser: the mail that carries the verification token is not modelled; the token is part of the outcome.
- AssignRole: the notification sent to the user is not part of the account state.
- Interleaving inside a handler, crashes between two commits or two Redis calls: each handler is one step.
- Order of the messages on a socket: what was sent is a multiset.
- JSON text, frames that are no JSON, and failures while sending to a socket.
- ListenTo: items arrive as one sequence while the connection table stays the same; changes between items are in `Delivery`.
- Free-text search: it only adds a condition to the statement, which is an arbitrary predicate here.
- OffsetPages: one order for all pages; `TieAcrossPagesRepeats` says what happens when ties are ordered anew for each page. A changing table under offset pages is not covered.
- WebsocketEndpoint: no other socket connects to or leaves the worker while the connection is served; such changes are in `Delivery`.
- Columns are compared through integers: any column whose values are totally ordered can be numbered that way.
- UTF-8 and CSV parsing of the sample: `parse` is an arbitrary function.
- File rows of deleted users: the objects stay, as in the program. Users come and go arbitrarily in `Files`, so that machine is not joined to the account machine.
- Role and permission ids: rows are keyed by their unique names; deleting a role is not modelled, as no route does it.
- Read-only listings, download links and the report task.
