// Users, tokens and sign-in methods: the data, and every handler as a function on it
// (app/api/auth.py, app/api/oauth.py, app/api/admin.py, app/services/user_profile.py,
// app/services/token_blacklist.py, app/auth/jwt.py, app/auth/dependencies.py, app/tasks/cleanup.py).
//
// A handler is one atomic step. Time is in microseconds and shared by the application and Redis.
// Values drawn by the server (user ids, jtis, OAuth states, link ids) are parameters, required to be
// fresh where a step is enabled.
module Accounts {
  import opened Wrappers
  import Decimal
  import Rbac

  const SECOND := 1_000_000
  const MINUTE := 60 * SECOND
  const DAY := 24 * 60 * MINUTE

  const UNVERIFIED_USER_MAX_AGE := 7 * DAY
  const STATE_TTL_SECONDS := 600

  // ---------- data ----------

  datatype TokenType = AccessToken | RefreshToken | EmailVerification | PasswordReset

  /** A signed token is its claims: subject, jti and exp are those of sections 4.1.2, 4.1.7 and 4.1.4 of RFC 7519. */
  datatype Token = Token(kind: TokenType, subject: string, jti: string, exp: int)

  /** A salted hash; verifying compares with the password it was made of. */
  datatype PasswordHash = PasswordHash(password: string)

  datatype User = User(
    email: string, hashedPassword: Option<PasswordHash>, isActive: bool, isVerified: bool, createdAt: int)

  datatype Link = Link(userId: int, provider: string, providerUserId: string, email: Option<string>)

  /** The Redis keys of this part of the application; `KeyText` gives their text. */
  datatype Key = BlacklistedToken(jti: string) | UsedToken(jti: string) | OAuthState(state: string)

  /** A key set with an expiry; it is absent from `deadline` on. */
  datatype Entry = Entry(value: string, deadline: int)

  /** `grace` is how long after `exp` a token still decodes; `configured` are the providers with credentials. */
  datatype Settings = Settings(accessMinutes: int, refreshDays: int, grace: int, configured: set<string>)

  /** `issued`, `usedIds` and `usedStates` record what the server has ever issued or drawn. */
  datatype World = World(
    users: map<int, User>, links: map<int, Link>, userRoles: set<(int, string)>, roles: map<string, Rbac.Role>,
    redis: map<Key, Entry>, now: int, settings: Settings,
    issued: set<Token>, usedIds: set<int>, usedStates: set<string>)

  datatype Refusal =
    | EmailTaken | InvalidCredentials | EmailNotVerified | AccountInactive
    | InvalidAccessToken | TokenRevoked | TokenUserNotFound | MissingPermission | MissingRole
    | InvalidRefreshToken | UserUnavailable
    | InvalidVerificationToken | InvalidResetToken | InvalidSubject
    | UserNotFound | RoleNotFound | PasswordUnchanged | NoPasswordSet | WrongPassword
    | UnknownProvider | ProviderNotConfigured | InvalidOAuthState | ProviderFailed
    | LinkedToAnotherUser | NoEmailFromProvider | ProviderNotLinked | OnlySignInMethod

  datatype Outcome =
    | Done
    | AlreadyVerified
    | Registered(id: int, verification: Token)
    | Mailed(reset: Option<Token>)
    | SignedIn(access: Token, refresh: Token)
    | Refreshed(token: Token)
    | Deleted(count: nat)
    | Refused(refusal: Refusal)

  // ---------- Redis keys with expiry (app/services/token_blacklist.py) ----------

  function KeyText(key: Key): string {
    match key
    case BlacklistedToken(jti) => "blacklist:token:" + jti
    case UsedToken(jti) => "used:token:" + jti
    case OAuthState(state) => "oauth:state:" + state
  }

  /** Different keys have different texts, so no entry answers for another. */
  lemma KeyTextInjective(a: Key, b: Key)
    requires KeyText(a) == KeyText(b)
    ensures a == b
  {
    assert KeyText(a)[0] == KeyText(b)[0];
    assert "blacklist:token:"[0] == 'b' && "used:token:"[0] == 'u' && "oauth:state:"[0] == 'o';
    match a
    case BlacklistedToken(jti) =>
      assert KeyText(a)[|"blacklist:token:"|..] == jti;
      assert b.BlacklistedToken? && KeyText(b)[|"blacklist:token:"|..] == b.jti;
    case UsedToken(jti) =>
      assert KeyText(a)[|"used:token:"|..] == jti;
      assert b.UsedToken? && KeyText(b)[|"used:token:"|..] == b.jti;
    case OAuthState(state) =>
      assert KeyText(a)[|"oauth:state:"|..] == state;
      assert b.OAuthState? && KeyText(b)[|"oauth:state:"|..] == b.state;
  }

  predicate Live(redis: map<Key, Entry>, key: Key, now: int) {
    key in redis && now < redis[key].deadline
  }

  /** `blacklist_token` and `mark_token_used`: nothing is written for a token with less than a second left. */
  function Marked(redis: map<Key, Entry>, key: Key, ttlSeconds: int, now: int): map<Key, Entry> {
    if ttlSeconds <= 0 then redis else redis[key := Entry("1", now + ttlSeconds * SECOND)]
  }

  // ---------- tokens (app/auth/jwt.py) ----------

  /** An `exp` claim is in whole seconds. */
  function NumericDate(t: int): int {
    t / SECOND * SECOND
  }

  function Lifetime(settings: Settings, kind: TokenType): int {
    match kind
    case AccessToken => settings.accessMinutes * MINUTE
    case RefreshToken => settings.refreshDays * DAY
    case EmailVerification => 30 * MINUTE
    case PasswordReset => 15 * MINUTE
  }

  function CreateToken(w: World, kind: TokenType, subject: string, jti: string): Token {
    Token(kind, subject, jti, NumericDate(w.now + Lifetime(w.settings, kind)))
  }

  /** Decoding succeeds for issued, unaltered tokens of the expected type that have not expired. */
  predicate Decodes(w: World, token: Token, expected: TokenType) {
    token in w.issued && token.kind == expected && w.now < token.exp + w.settings.grace
  }

  /** The whole seconds left, cut off, and never negative. */
  function RemainingTtlSeconds(exp: int, now: int): nat {
    if exp <= now then 0 else (exp - now) / SECOND
  }

  predicate Blacklisted(w: World, jti: string) {
    Live(w.redis, BlacklistedToken(jti), w.now)
  }

  predicate TokenUsed(w: World, jti: string) {
    Live(w.redis, UsedToken(jti), w.now)
  }

  // ---------- lookups ----------

  /** Lower case, for ASCII letters. */
  function Lower(s: string): string {
    seq(|s|, i requires 0 <= i < |s| => if 'A' <= s[i] <= 'Z' then (s[i] as int + 32) as char else s[i])
  }

  function Hash(password: string): PasswordHash {
    PasswordHash(password)
  }

  predicate Verify(password: string, hash: PasswordHash) {
    hash.password == password
  }

  /** The user with exactly this email; emails are unique. */
  ghost function UserByEmail(users: map<int, User>, email: string): (found: Option<int>)
    ensures found.Some? ==> found.value in users && users[found.value].email == email
    ensures found.None? ==> forall id :: id in users ==> users[id].email != email
  {
    if exists id :: id in users && users[id].email == email then
      var id :| id in users && users[id].email == email; Some(id)
    else
      None
  }

  predicate IsIdentity(link: Link, provider: string, providerUserId: string) {
    link.provider == provider && link.providerUserId == providerUserId
  }

  /** The link of an OAuth identity; (provider, provider user id) is unique. */
  ghost function LinkByIdentity(links: map<int, Link>, provider: string, providerUserId: string): (found: Option<int>)
    ensures found.Some? ==> found.value in links && IsIdentity(links[found.value], provider, providerUserId)
    ensures found.None? ==> forall l :: l in links ==> !IsIdentity(links[l], provider, providerUserId)
  {
    if exists l :: l in links && IsIdentity(links[l], provider, providerUserId) then
      var l :| l in links && IsIdentity(links[l], provider, providerUserId); Some(l)
    else
      None
  }

  function LinksOf(links: map<int, Link>, userId: int): set<int> {
    set l | l in links && links[l].userId == userId
  }

  function RolesOf(userRoles: set<(int, string)>, userId: int): set<string> {
    set p | p in userRoles && p.0 == userId :: p.1
  }

  // ---------- who is calling (app/auth/dependencies.py, app/core/rbac.py) ----------

  ghost function CurrentUser(w: World, access: Token): Result<int, Refusal> {
    if !Decodes(w, access, AccessToken) then Err(InvalidAccessToken)
    else if Blacklisted(w, access.jti) then Err(TokenRevoked)
    else
      match UserByEmail(w.users, access.subject)
      case None => Err(TokenUserNotFound)
      case Some(id) => if w.users[id].isActive then Ok(id) else Err(AccountInactive)
  }

  /** The WebSocket check closes the connection with one code whatever the reason. */
  ghost function CurrentUserWs(w: World, access: Token): (caller: Option<int>)
    ensures caller.Some? <==> CurrentUser(w, access).Ok?
    ensures caller.Some? ==> CurrentUser(w, access) == Ok(caller.value)
  {
    if !Decodes(w, access, AccessToken) || Blacklisted(w, access.jti) then None
    else
      match UserByEmail(w.users, access.subject)
      case None => None
      case Some(id) => if w.users[id].isActive then Some(id) else None
  }

  ghost function Permitted(w: World, access: Token, required: set<string>): Result<int, Refusal> {
    match CurrentUser(w, access)
    case Err(refusal) => Err(refusal)
    case Ok(id) =>
      if Rbac.PermissionCheck(w.roles, RolesOf(w.userRoles, id), required) then Ok(id) else Err(MissingPermission)
  }

  ghost function InRoles(w: World, access: Token, allowed: set<string>): Result<int, Refusal> {
    match CurrentUser(w, access)
    case Err(refusal) => Err(refusal)
    case Ok(id) => if Rbac.RoleCheck(RolesOf(w.userRoles, id), allowed) then Ok(id) else Err(MissingRole)
  }

  // ---------- app/api/auth.py ----------

  ghost function RegisterUser(w: World, email: string, password: string, id: int, jti: string): (World, Outcome) {
    var normalized := Lower(email);
    if UserByEmail(w.users, normalized).Some? then
      (w, Refused(EmailTaken))
    else
      var token := CreateToken(w, EmailVerification, Decimal.IntText(id), jti);
      (w.(users := w.users[id := User(normalized, Some(Hash(password)), true, false, w.now)],
          userRoles := if Rbac.DEFAULT_USER_ROLE_NAME in w.roles then w.userRoles + {(id, Rbac.DEFAULT_USER_ROLE_NAME)}
                       else w.userRoles,
          issued := w.issued + {token},
          usedIds := w.usedIds + {id}),
       Registered(id, token))
  }

  /** An access and a refresh token for an email. */
  function SignIn(w: World, email: string, accessJti: string, refreshJti: string): (World, Outcome) {
    var access := CreateToken(w, AccessToken, email, accessJti);
    var refresh := CreateToken(w, RefreshToken, email, refreshJti);
    (w.(issued := w.issued + {access, refresh}), SignedIn(access, refresh))
  }

  ghost function LoginUser(w: World, email: string, password: string, accessJti: string, refreshJti: string)
    : (World, Outcome)
  {
    match UserByEmail(w.users, Lower(email))
    case None => (w, Refused(InvalidCredentials))
    case Some(id) =>
      var user := w.users[id];
      if user.hashedPassword.None? || !Verify(password, user.hashedPassword.value) then (w, Refused(InvalidCredentials))
      else if !user.isVerified then (w, Refused(EmailNotVerified))
      else if !user.isActive then (w, Refused(AccountInactive))
      else SignIn(w, user.email, accessJti, refreshJti)
  }

  ghost function RefreshAccessToken(w: World, refresh: Token, jti: string): (World, Outcome) {
    if !Decodes(w, refresh, RefreshToken) || Blacklisted(w, refresh.jti) then (w, Refused(InvalidRefreshToken))
    else
      match UserByEmail(w.users, refresh.subject)
      case None => (w, Refused(UserUnavailable))
      case Some(id) =>
        if !w.users[id].isActive then (w, Refused(UserUnavailable))
        else
          var token := CreateToken(w, AccessToken, w.users[id].email, jti);
          (w.(issued := w.issued + {token}), Refreshed(token))
  }

  /** A token is put on the blacklist for as many whole seconds as it has left. */
  function BlacklistToken(w: World, token: Token): World {
    w.(redis := Marked(w.redis, BlacklistedToken(token.jti), RemainingTtlSeconds(token.exp, w.now), w.now))
  }

  function Logout(w: World, access: Token, refresh: Option<Token>): (World, Outcome) {
    if !Decodes(w, access, AccessToken) then
      (w, Refused(InvalidAccessToken))
    else
      var w1 := BlacklistToken(w, access);
      var named := refresh.Some? && Decodes(w1, refresh.value, RefreshToken);
      var w2 := if named then BlacklistToken(w1, refresh.value) else w1;
      (w2, Done)
  }

  function MarkTokenUsed(w: World, token: Token): World {
    w.(redis := Marked(w.redis, UsedToken(token.jti), RemainingTtlSeconds(token.exp, w.now), w.now))
  }

  function VerifyEmail(w: World, token: Token): (World, Outcome) {
    if !Decodes(w, token, EmailVerification) then (w, Refused(InvalidVerificationToken))
    else
      match Decimal.ParseInt(token.subject)
      case None => (w, Refused(InvalidSubject))
      case Some(id) =>
        if id !in w.users then (w, Refused(UserNotFound))
        else if w.users[id].isVerified then (w, AlreadyVerified)
        else if TokenUsed(w, token.jti) then (w, Refused(InvalidVerificationToken))
        else (MarkTokenUsed(w.(users := w.users[id := w.users[id].(isVerified := true)]), token), Done)
  }

  ghost function ForgotPassword(w: World, email: string, jti: string): (World, Outcome) {
    match UserByEmail(w.users, Lower(email))
    case None => (w, Mailed(None))
    case Some(id) =>
      if !w.users[id].isActive then (w, Mailed(None))
      else
        var token := CreateToken(w, PasswordReset, Decimal.IntText(id), jti);
        (w.(issued := w.issued + {token}), Mailed(Some(token)))
  }

  function ResetPassword(w: World, token: Token, newPassword: string): (World, Outcome) {
    if !Decodes(w, token, PasswordReset) || TokenUsed(w, token.jti) then (w, Refused(InvalidResetToken))
    else
      match Decimal.ParseInt(token.subject)
      case None => (w, Refused(InvalidSubject))
      case Some(id) =>
        if id !in w.users then (w, Refused(UserNotFound))
        else
          var user := w.users[id];
          if !user.isActive then (w, Refused(AccountInactive))
          else if user.hashedPassword.Some? && Verify(newPassword, user.hashedPassword.value) then
            (w, Refused(PasswordUnchanged))
          else
            var w' := w.(users := w.users[id := user.(hashedPassword := Some(Hash(newPassword)))]);
            (MarkTokenUsed(w', token), Done)
  }

  // ---------- app/services/user_profile.py ----------

  ghost function UpdateUserEmail(w: World, access: Token, newEmail: string): (World, Outcome) {
    match CurrentUser(w, access)
    case Err(refusal) => (w, Refused(refusal))
    case Ok(id) =>
      var normalized := Lower(newEmail);
      if exists other :: other in w.users && w.users[other].email == normalized && other != id then
        (w, Refused(EmailTaken))
      else
        (w.(users := w.users[id := w.users[id].(email := normalized)]), Done)
  }

  ghost function ChangeUserPassword(w: World, access: Token, currentPassword: string, newPassword: string)
    : (World, Outcome)
  {
    match CurrentUser(w, access)
    case Err(refusal) => (w, Refused(refusal))
    case Ok(id) =>
      var user := w.users[id];
      if user.hashedPassword.None? then (w, Refused(NoPasswordSet))
      else if !Verify(currentPassword, user.hashedPassword.value) then (w, Refused(WrongPassword))
      else if Verify(newPassword, user.hashedPassword.value) then (w, Refused(PasswordUnchanged))
      else (w.(users := w.users[id := user.(hashedPassword := Some(Hash(newPassword)))]), Done)
  }

  ghost function DeactivateSelf(w: World, access: Token): (World, Outcome) {
    match CurrentUser(w, access)
    case Err(refusal) => (w, Refused(refusal))
    case Ok(id) => (w.(users := w.users[id := w.users[id].(isActive := false)]), Done)
  }

  // ---------- app/api/admin.py ----------

  ghost function UpdateUserStatus(w: World, access: Token, userId: int, isActive: Option<bool>,
                                  isVerified: Option<bool>)
    : (World, Outcome)
  {
    match Permitted(w, access, {"users:write"})
    case Err(refusal) => (w, Refused(refusal))
    case Ok(_) =>
      if userId !in w.users then (w, Refused(UserNotFound))
      else
        var user := w.users[userId];
        var active := if isActive.Some? then isActive.value else user.isActive;
        var verified := if isVerified.Some? then isVerified.value else user.isVerified;
        (w.(users := w.users[userId := user.(isActive := active, isVerified := verified)]), Done)
  }

  ghost function DeactivateUser(w: World, access: Token, userId: int): (World, Outcome) {
    match Permitted(w, access, {"users:delete"})
    case Err(refusal) => (w, Refused(refusal))
    case Ok(_) =>
      if userId !in w.users then (w, Refused(UserNotFound))
      else (w.(users := w.users[userId := w.users[userId].(isActive := false)]), Done)
  }

  ghost function AssignRole(w: World, access: Token, userId: int, role: string): (World, Outcome) {
    match Permitted(w, access, {"roles:manage"})
    case Err(refusal) => (w, Refused(refusal))
    case Ok(_) =>
      if userId !in w.users then (w, Refused(UserNotFound))
      else if role !in w.roles then (w, Refused(RoleNotFound))
      else (w.(userRoles := w.userRoles + {(userId, role)}), Done)
  }

  ghost function RevokeRole(w: World, access: Token, userId: int, role: string): (World, Outcome) {
    match Permitted(w, access, {"roles:manage"})
    case Err(refusal) => (w, Refused(refusal))
    case Ok(_) =>
      if userId !in w.users then (w, Refused(UserNotFound))
      else (w.(userRoles := w.userRoles - {(userId, role)}), Done)
  }

  // ---------- the operator ----------

  /** The row an operator inserts for the first administrator; no route does that. */
  function GrantInDatabase(w: World, userId: int, role: string): (World, Outcome) {
    (w.(userRoles := w.userRoles + {(userId, role)}), Done)
  }

  // ---------- app/api/oauth.py ----------

  const SUPPORTED_PROVIDERS: set<string> := {"google", "github", "microsoft"}

  const LOGIN_STATE: string := "login"
  const LINK_PREFIX: string := "link:"

  function LinkState(userId: int): string {
    LINK_PREFIX + Decimal.IntText(userId)
  }

  /** The user a state value was made for when it starts a linking, `None` when it starts a sign-in. */
  function LinkingUser(value: string): Option<int> {
    if LINK_PREFIX <= value then Decimal.ParseInt(value[|LINK_PREFIX|..]) else None
  }

  lemma LinkStateRoundTrip(userId: int)
    ensures LinkingUser(LinkState(userId)) == Some(userId)
    ensures LinkingUser(LOGIN_STATE) == None
  {
    assert LinkState(userId)[|LINK_PREFIX|..] == Decimal.IntText(userId);
    Decimal.ParseIntText(userId);
    assert LOGIN_STATE[1] == 'o' && LINK_PREFIX[1] == 'i';
  }

  /** `None` if the provider can be used. */
  function ClientRefusal(settings: Settings, provider: string): Option<Refusal> {
    if provider !in SUPPORTED_PROVIDERS then Some(UnknownProvider)
    else if provider !in settings.configured then Some(ProviderNotConfigured)
    else None
  }

  function PutState(w: World, state: string, value: string): World {
    w.(redis := w.redis[OAuthState(state) := Entry(value, w.now + STATE_TTL_SECONDS * SECOND)],
       usedStates := w.usedStates + {state})
  }

  function OAuthLogin(w: World, provider: string, state: string): (World, Outcome) {
    match ClientRefusal(w.settings, provider)
    case Some(refusal) => (w, Refused(refusal))
    case None => (PutState(w, state, LOGIN_STATE), Done)
  }

  ghost function OAuthLink(w: World, access: Token, provider: string, state: string): (World, Outcome) {
    match CurrentUser(w, access)
    case Err(refusal) => (w, Refused(refusal))
    case Ok(id) =>
      match ClientRefusal(w.settings, provider)
      case Some(refusal) => (w, Refused(refusal))
      case None => (PutState(w, state, LinkState(id)), Done)
  }

  /** What the provider says about who signed in there. */
  datatype Identity = Identity(providerUserId: string, email: Option<string>)

  function AddLink(w: World, linkId: int, userId: int, provider: string, identity: Identity): World {
    w.(links := w.links[linkId := Link(userId, provider, identity.providerUserId, identity.email)])
  }

  /** The callback of a linking started by `userId`. */
  ghost function CompleteLinking(w: World, userId: int, provider: string, identity: Identity, drawn: Drawn)
    : (World, Outcome)
  {
    var existing := LinkByIdentity(w.links, provider, identity.providerUserId);
    if existing.Some? && w.links[existing.value].userId != userId then (w, Refused(LinkedToAnotherUser))
    else if userId !in w.users then (w, Refused(UserNotFound))
    else
      var w' := if existing.None? then AddLink(w, drawn.linkId, userId, provider, identity) else w;
      SignIn(w', w.users[userId].email, drawn.accessJti, drawn.refreshJti)
  }

  /** The callback of a sign-in: an existing link, else a user with the same email, else a new user. */
  ghost function CompleteLogin(w: World, provider: string, identity: Identity, drawn: Drawn): (World, Outcome) {
    match LinkByIdentity(w.links, provider, identity.providerUserId)
    case Some(l) =>
      var userId := w.links[l].userId;
      if userId !in w.users || !w.users[userId].isActive then (w, Refused(AccountInactive))
      else SignIn(w, w.users[userId].email, drawn.accessJti, drawn.refreshJti)
    case None =>
      if identity.email.None? then (w, Refused(NoEmailFromProvider))
      else
        match UserByEmail(w.users, identity.email.value)
        case Some(id) =>
          var w' := AddLink(w, drawn.linkId, id, provider, identity);
          if !w.users[id].isActive then (w', Refused(AccountInactive))
          else SignIn(w', w.users[id].email, drawn.accessJti, drawn.refreshJti)
        case None =>
          var user := User(identity.email.value, None, true, true, w.now);
          var w' := w.(users := w.users[drawn.userId := user], usedIds := w.usedIds + {drawn.userId});
          SignIn(AddLink(w', drawn.linkId, drawn.userId, provider, identity), user.email, drawn.accessJti,
                 drawn.refreshJti)
  }

  /** Values a callback may draw. */
  datatype Drawn = Drawn(userId: int, linkId: int, accessJti: string, refreshJti: string)

  /** `identity` is `None` when the exchange with the provider fails. */
  ghost function OAuthCallback(w: World, provider: string, state: string, identity: Option<Identity>, drawn: Drawn)
    : (World, Outcome)
  {
    match ClientRefusal(w.settings, provider)
    case Some(refusal) => (w, Refused(refusal))
    case None =>
      var key := OAuthState(state);
      if !Live(w.redis, key, w.now) then (w, Refused(InvalidOAuthState))
      else
        var consumed := w.(redis := w.redis - {key});
        if identity.None? then (consumed, Refused(ProviderFailed))
        else
          match LinkingUser(w.redis[key].value)
          case Some(userId) => CompleteLinking(consumed, userId, provider, identity.value, drawn)
          case None => CompleteLogin(consumed, provider, identity.value, drawn)
  }

  function ProviderLinks(links: map<int, Link>, userId: int, provider: string): set<int> {
    set l | l in links && links[l].userId == userId && links[l].provider == provider
  }

  /** `picked` is the row the database returns when several links of the provider match. */
  ghost function UnlinkProvider(w: World, access: Token, provider: string, picked: int): (World, Outcome) {
    match CurrentUser(w, access)
    case Err(refusal) => (w, Refused(refusal))
    case Ok(id) =>
      if ProviderLinks(w.links, id, provider) == {} then (w, Refused(ProviderNotLinked))
      else if w.users[id].hashedPassword.None? && |LinksOf(w.links, id)| <= 1 then (w, Refused(OnlySignInMethod))
      else (w.(links := w.links - {picked}), Done)
  }

  // ---------- app/tasks/cleanup.py ----------

  function Stale(users: map<int, User>, cutoff: int): set<int> {
    set id | id in users && !users[id].isVerified && users[id].createdAt < cutoff
  }

  /** Deleting users takes their links and role assignments with them. */
  function DeleteUsers(w: World, ids: set<int>): World {
    w.(users := w.users - ids,
       links := map l | l in w.links && w.links[l].userId !in ids :: w.links[l],
       userRoles := set p | p in w.userRoles && p.0 !in ids)
  }

  function CleanupBefore(w: World, cutoff: int): (World, Outcome) {
    var stale := Stale(w.users, cutoff);
    (DeleteUsers(w, stale), Deleted(|stale|))
  }

  function CleanupUnverifiedUsers(w: World): (World, Outcome) {
    CleanupBefore(w, w.now - UNVERIFIED_USER_MAX_AGE)
  }

  // ---------- steps ----------

  datatype Step =
    | Tick(micros: nat)
    | Register(email: string, password: string, id: int, jti: string)
    | Login(email: string, password: string, accessJti: string, refreshJti: string)
    | Refresh(refresh: Token, jti: string)
    | LogOut(access: Token, alsoRefresh: Option<Token>)
    | Verification(token: Token)
    | Forgot(email: string, jti: string)
    | Reset(token: Token, password: string)
    | UpdateEmail(access: Token, email: string)
    | ChangePassword(access: Token, currentPassword: string, newPassword: string)
    | Deactivate(access: Token)
    | AdminUpdate(access: Token, userId: int, isActive: Option<bool>, isVerified: Option<bool>)
    | AdminDeactivate(access: Token, userId: int)
    | AdminAssign(access: Token, userId: int, role: string)
    | AdminRevoke(access: Token, userId: int, role: string)
    | StartLogin(provider: string, state: string)
    | StartLink(access: Token, provider: string, state: string)
    | Callback(provider: string, state: string, identity: Option<Identity>, drawn: Drawn)
    | Unlink(access: Token, provider: string, picked: int)
    | Cleanup
    | DatabaseGrant(userId: int, role: string)

  predicate JtiFresh(w: World, jti: string) {
    forall token :: token in w.issued ==> token.jti != jti
  }

  /** Drawn values are new, a picked row is one that matches, and inserted rows obey the foreign keys. */
  ghost predicate Enabled(w: World, step: Step) {
    match step
    case Register(_, _, id, jti) => id !in w.usedIds && JtiFresh(w, jti)
    case Login(_, _, accessJti, refreshJti) =>
      JtiFresh(w, accessJti) && JtiFresh(w, refreshJti) && accessJti != refreshJti
    case Refresh(_, jti) => JtiFresh(w, jti)
    case Forgot(_, jti) => JtiFresh(w, jti)
    case StartLogin(_, state) => state !in w.usedStates
    case StartLink(_, _, state) => state !in w.usedStates
    case Callback(_, _, _, drawn) =>
      && drawn.userId !in w.usedIds && drawn.linkId !in w.links
      && JtiFresh(w, drawn.accessJti) && JtiFresh(w, drawn.refreshJti) && drawn.accessJti != drawn.refreshJti
    case Unlink(access, provider, picked) =>
      var caller := CurrentUser(w, access);
      caller.Ok? && ProviderLinks(w.links, caller.value, provider) != {} ==>
        picked in ProviderLinks(w.links, caller.value, provider)
    case DatabaseGrant(userId, role) => userId in w.users && role in w.roles
    case _ => true
  }

  ghost function Apply(w: World, step: Step): (World, Outcome) {
    match step
    case Tick(micros) => (w.(now := w.now + micros), Done)
    case Register(email, password, id, jti) => RegisterUser(w, email, password, id, jti)
    case Login(email, password, accessJti, refreshJti) => LoginUser(w, email, password, accessJti, refreshJti)
    case Refresh(refresh, jti) => RefreshAccessToken(w, refresh, jti)
    case LogOut(access, alsoRefresh) => Logout(w, access, alsoRefresh)
    case Verification(token) => VerifyEmail(w, token)
    case Forgot(email, jti) => ForgotPassword(w, email, jti)
    case Reset(token, password) => ResetPassword(w, token, password)
    case UpdateEmail(access, email) => UpdateUserEmail(w, access, email)
    case ChangePassword(access, currentPassword, newPassword) =>
      ChangeUserPassword(w, access, currentPassword, newPassword)
    case Deactivate(access) => DeactivateSelf(w, access)
    case AdminUpdate(access, userId, isActive, isVerified) => UpdateUserStatus(w, access, userId, isActive, isVerified)
    case AdminDeactivate(access, userId) => DeactivateUser(w, access, userId)
    case AdminAssign(access, userId, role) => AssignRole(w, access, userId, role)
    case AdminRevoke(access, userId, role) => RevokeRole(w, access, userId, role)
    case StartLogin(provider, state) => OAuthLogin(w, provider, state)
    case StartLink(access, provider, state) => OAuthLink(w, access, provider, state)
    case Callback(provider, state, identity, drawn) => OAuthCallback(w, provider, state, identity, drawn)
    case Unlink(access, provider, picked) => UnlinkProvider(w, access, provider, picked)
    case Cleanup => CleanupUnverifiedUsers(w)
    case DatabaseGrant(userId, role) => GrantInDatabase(w, userId, role)
  }

  ghost function Next(w: World, step: Step): World {
    Apply(w, step).0
  }

  /** A new deployment: no accounts and no Redis entries, any roles and settings. */
  ghost predicate Initial(w: World) {
    w.users == map[] && w.links == map[] && w.userRoles == {} && w.redis == map[]
    && w.issued == {} && w.usedIds == {} && w.usedStates == {}
  }

  ghost predicate IsRun(worlds: seq<World>, steps: seq<Step>) {
    && |worlds| == |steps| + 1 && Initial(worlds[0])
    && forall i {:trigger steps[i]} :: 0 <= i < |steps| ==>
         Enabled(worlds[i], steps[i]) && worlds[i + 1] == Next(worlds[i], steps[i])
  }
}
