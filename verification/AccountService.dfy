// The handlers as the service runs them: statements on the database and on Redis, each proved to do what
// its function in `Accounts` says.
module AccountService {
  import opened Wrappers
  import opened Accounts
  import opened AccountInvariants
  import Decimal
  import Rbac

  /** Database tables, Redis and the clock, as one handler sees them. */
  class Backend {
    var users: map<int, User>
    var links: map<int, Link>
    var userRoles: set<(int, string)>
    var roles: map<string, Rbac.Role>
    var redis: map<Key, Entry>
    var now: int
    var settings: Settings
    var issued: set<Token>
    ghost var usedIds: set<int>
    ghost var usedStates: set<string>

    constructor (roles: map<string, Rbac.Role>, now: int, settings: Settings)
      ensures Initial(State()) && SchemaOk()
      ensures this.roles == roles && this.now == now && this.settings == settings
    {
      users, links, userRoles, redis, issued := map[], map[], {}, map[], {};
      this.roles, this.now, this.settings := roles, now, settings;
      usedIds, usedStates := {}, {};
    }

    ghost function State(): World
      reads this
    {
      World(users, links, userRoles, roles, redis, now, settings, issued, usedIds, usedStates)
    }

    /** The unique constraints of the tables. */
    ghost predicate SchemaOk()
      reads this
    {
      EmailsUnique(users) && IdentitiesUnique(links)
    }

    // ---------- app/services/token_blacklist.py ----------

    method BlacklistToken(jti: string, ttlSeconds: int)
      modifies this`redis
      ensures redis == Marked(old(redis), BlacklistedToken(jti), ttlSeconds, now)
    {
      if ttlSeconds <= 0 {
        return;
      }
      redis := redis[BlacklistedToken(jti) := Entry("1", now + ttlSeconds * SECOND)];
    }

    method IsTokenBlacklisted(jti: string) returns (yes: bool)
      ensures yes <==> Blacklisted(State(), jti)
    {
      yes := Live(redis, BlacklistedToken(jti), now);
    }

    method MarkTokenUsed(jti: string, ttlSeconds: int)
      modifies this`redis
      ensures redis == Marked(old(redis), UsedToken(jti), ttlSeconds, now)
    {
      if ttlSeconds <= 0 {
        return;
      }
      redis := redis[UsedToken(jti) := Entry("1", now + ttlSeconds * SECOND)];
    }

    method IsTokenUsed(jti: string) returns (yes: bool)
      ensures yes <==> TokenUsed(State(), jti)
    {
      yes := Live(redis, UsedToken(jti), now);
    }

    // ---------- app/auth/jwt.py ----------

    method CreateToken(kind: TokenType, subject: string, jti: string) returns (token: Token)
      modifies this`issued
      ensures token == Accounts.CreateToken(old(State()), kind, subject, jti)
      ensures issued == old(issued) + {token}
    {
      token := Token(kind, subject, jti, NumericDate(now + Lifetime(settings, kind)));
      issued := issued + {token};
    }

    /** The claims of a token that decodes, which are the token itself here. */
    method DecodeToken(token: Token, expected: TokenType) returns (claims: Option<Token>)
      ensures claims == if Decodes(State(), token, expected) then Some(token) else None
    {
      if token !in issued || now >= token.exp + settings.grace {
        return None;
      }
      if token.kind != expected {
        return None;
      }
      return Some(token);
    }

    // ---------- queries ----------

    method UserByEmail(email: string) returns (found: Option<int>)
      requires SchemaOk()
      ensures found == Accounts.UserByEmail(users, email)
    {
      if id :| id in users && users[id].email == email {
        return Some(id);
      }
      return None;
    }

    method LinkByIdentity(provider: string, providerUserId: string) returns (found: Option<int>)
      requires SchemaOk()
      ensures found == Accounts.LinkByIdentity(links, provider, providerUserId)
    {
      if l :| l in links && IsIdentity(links[l], provider, providerUserId) {
        assert forall m :: m in links && IsIdentity(links[m], provider, providerUserId) ==>
            SameIdentity(links[l], links[m]);
        return Some(l);
      }
      return None;
    }

    // ---------- app/auth/dependencies.py, app/core/rbac.py ----------

    method CurrentUser(access: Token) returns (r: Result<int, Refusal>)
      requires SchemaOk()
      ensures r == Accounts.CurrentUser(State(), access)
    {
      var claims := DecodeToken(access, AccessToken);
      if claims.None? {
        return Err(InvalidAccessToken);
      }
      var revoked := IsTokenBlacklisted(claims.value.jti);
      if revoked {
        return Err(TokenRevoked);
      }
      var user := UserByEmail(claims.value.subject);
      if user.None? {
        return Err(TokenUserNotFound);
      }
      if !users[user.value].isActive {
        return Err(AccountInactive);
      }
      return Ok(user.value);
    }

    method RequirePermissions(access: Token, required: set<string>) returns (r: Result<int, Refusal>)
      requires SchemaOk()
      ensures r == Permitted(State(), access, required)
    {
      r := CurrentUser(access);
      if r.Ok? {
        var held := Rbac.UserPermissions(roles, RolesOf(userRoles, r.value));
        if !(required <= held) {
          return Err(MissingPermission);
        }
      }
    }

    method RequireRoles(access: Token, allowed: set<string>) returns (r: Result<int, Refusal>)
      requires SchemaOk()
      ensures r == InRoles(State(), access, allowed)
    {
      r := CurrentUser(access);
      if r.Ok? {
        var held := RolesOf(userRoles, r.value);
        if held * allowed == {} {
          return Err(MissingRole);
        }
      }
    }

    // ---------- app/api/auth.py ----------

    method RegisterUser(email: string, password: string, id: int, jti: string) returns (outcome: Outcome)
      requires SchemaOk()
      modifies this
      ensures (State(), outcome) == Accounts.RegisterUser(old(State()), email, password, id, jti)
    {
      var normalized := Lower(email);
      var existing := UserByEmail(normalized);
      if existing.Some? {
        return Refused(EmailTaken);
      }
      users := users[id := User(normalized, Some(Hash(password)), true, false, now)];
      usedIds := usedIds + {id};
      if Rbac.DEFAULT_USER_ROLE_NAME in roles {
        userRoles := userRoles + {(id, Rbac.DEFAULT_USER_ROLE_NAME)};
      }
      var token := CreateToken(EmailVerification, Decimal.IntText(id), jti);
      return Registered(id, token);
    }

    method LoginUser(email: string, password: string, accessJti: string, refreshJti: string) returns (outcome: Outcome)
      requires SchemaOk()
      modifies this`issued
      ensures (State(), outcome) == Accounts.LoginUser(old(State()), email, password, accessJti, refreshJti)
    {
      var user := UserByEmail(Lower(email));
      if user.None? || users[user.value].hashedPassword.None?
         || !Verify(password, users[user.value].hashedPassword.value) {
        return Refused(InvalidCredentials);
      }
      if !users[user.value].isVerified {
        return Refused(EmailNotVerified);
      }
      if !users[user.value].isActive {
        return Refused(AccountInactive);
      }
      outcome := IssueBoth(users[user.value].email, accessJti, refreshJti);
    }

    method IssueBoth(email: string, accessJti: string, refreshJti: string) returns (outcome: Outcome)
      modifies this`issued
      ensures (State(), outcome) == SignIn(old(State()), email, accessJti, refreshJti)
    {
      ghost var before := issued;
      var access := CreateToken(AccessToken, email, accessJti);
      var refresh := CreateToken(RefreshToken, email, refreshJti);
      assert issued == before + {access, refresh};
      return SignedIn(access, refresh);
    }

    method RefreshAccessToken(refresh: Token, jti: string) returns (outcome: Outcome)
      requires SchemaOk()
      modifies this`issued
      ensures (State(), outcome) == Accounts.RefreshAccessToken(old(State()), refresh, jti)
    {
      var claims := DecodeToken(refresh, RefreshToken);
      if claims.None? {
        return Refused(InvalidRefreshToken);
      }
      var revoked := IsTokenBlacklisted(claims.value.jti);
      if revoked {
        return Refused(InvalidRefreshToken);
      }
      var user := UserByEmail(claims.value.subject);
      if user.None? || !users[user.value].isActive {
        return Refused(UserUnavailable);
      }
      var token := CreateToken(AccessToken, users[user.value].email, jti);
      return Refreshed(token);
    }

    method Logout(access: Token, refresh: Option<Token>) returns (outcome: Outcome)
      modifies this`redis
      ensures (State(), outcome) == Accounts.Logout(old(State()), access, refresh)
    {
      var accessClaims := DecodeToken(access, AccessToken);
      if accessClaims.None? {
        return Refused(InvalidAccessToken);
      }
      BlacklistToken(access.jti, RemainingTtlSeconds(access.exp, now));
      if refresh.Some? {
        var refreshClaims := DecodeToken(refresh.value, RefreshToken);
        if refreshClaims.Some? {
          BlacklistToken(refresh.value.jti, RemainingTtlSeconds(refresh.value.exp, now));
        }
      }
      return Done;
    }

    method VerifyEmail(token: Token) returns (outcome: Outcome)
      modifies this`users, this`redis
      ensures (State(), outcome) == Accounts.VerifyEmail(old(State()), token)
    {
      var claims := DecodeToken(token, EmailVerification);
      if claims.None? {
        return Refused(InvalidVerificationToken);
      }
      var userId := Decimal.ParseInt(token.subject);
      if userId.None? {
        return Refused(InvalidSubject);
      }
      if userId.value !in users {
        return Refused(UserNotFound);
      }
      if users[userId.value].isVerified {
        return AlreadyVerified;
      }
      var used := IsTokenUsed(token.jti);
      if used {
        return Refused(InvalidVerificationToken);
      }
      users := users[userId.value := users[userId.value].(isVerified := true)];
      MarkTokenUsed(token.jti, RemainingTtlSeconds(token.exp, now));
      return Done;
    }

    method ForgotPassword(email: string, jti: string) returns (outcome: Outcome)
      requires SchemaOk()
      modifies this`issued
      ensures (State(), outcome) == Accounts.ForgotPassword(old(State()), email, jti)
    {
      var user := UserByEmail(Lower(email));
      if user.Some? && users[user.value].isActive {
        var token := CreateToken(PasswordReset, Decimal.IntText(user.value), jti);
        return Mailed(Some(token));
      }
      return Mailed(None);
    }

    method ResetPassword(token: Token, newPassword: string) returns (outcome: Outcome)
      modifies this`users, this`redis
      ensures (State(), outcome) == Accounts.ResetPassword(old(State()), token, newPassword)
    {
      var claims := DecodeToken(token, PasswordReset);
      if claims.None? {
        return Refused(InvalidResetToken);
      }
      var used := IsTokenUsed(token.jti);
      if used {
        return Refused(InvalidResetToken);
      }
      var userId := Decimal.ParseInt(token.subject);
      if userId.None? {
        return Refused(InvalidSubject);
      }
      if userId.value !in users {
        return Refused(UserNotFound);
      }
      var user := users[userId.value];
      if !user.isActive {
        return Refused(AccountInactive);
      }
      if user.hashedPassword.Some? && Verify(newPassword, user.hashedPassword.value) {
        return Refused(PasswordUnchanged);
      }
      users := users[userId.value := user.(hashedPassword := Some(Hash(newPassword)))];
      MarkTokenUsed(token.jti, RemainingTtlSeconds(token.exp, now));
      return Done;
    }

    // ---------- app/services/user_profile.py ----------

    method UpdateUserEmail(access: Token, newEmail: string) returns (outcome: Outcome)
      requires SchemaOk()
      modifies this`users
      ensures (State(), outcome) == Accounts.UpdateUserEmail(old(State()), access, newEmail)
    {
      var caller := CurrentUser(access);
      if caller.Err? {
        return Refused(caller.error);
      }
      var normalized := Lower(newEmail);
      if other :| other in users && users[other].email == normalized && other != caller.value {
        return Refused(EmailTaken);
      }
      users := users[caller.value := users[caller.value].(email := normalized)];
      return Done;
    }

    method ChangeUserPassword(access: Token, currentPassword: string, newPassword: string) returns (outcome: Outcome)
      requires SchemaOk()
      modifies this`users
      ensures (State(), outcome) == Accounts.ChangeUserPassword(old(State()), access, currentPassword, newPassword)
    {
      var caller := CurrentUser(access);
      if caller.Err? {
        return Refused(caller.error);
      }
      var user := users[caller.value];
      if user.hashedPassword.None? {
        return Refused(NoPasswordSet);
      }
      if !Verify(currentPassword, user.hashedPassword.value) {
        return Refused(WrongPassword);
      }
      if Verify(newPassword, user.hashedPassword.value) {
        return Refused(PasswordUnchanged);
      }
      users := users[caller.value := user.(hashedPassword := Some(Hash(newPassword)))];
      return Done;
    }

    method DeactivateSelf(access: Token) returns (outcome: Outcome)
      requires SchemaOk()
      modifies this`users
      ensures (State(), outcome) == Accounts.DeactivateSelf(old(State()), access)
    {
      var caller := CurrentUser(access);
      if caller.Err? {
        return Refused(caller.error);
      }
      users := users[caller.value := users[caller.value].(isActive := false)];
      return Done;
    }

    // ---------- app/api/admin.py ----------

    method UpdateUserStatus(access: Token, userId: int, isActive: Option<bool>, isVerified: Option<bool>)
      returns (outcome: Outcome)
      requires SchemaOk()
      modifies this`users
      ensures (State(), outcome) == Accounts.UpdateUserStatus(old(State()), access, userId, isActive, isVerified)
    {
      var caller := RequirePermissions(access, {"users:write"});
      if caller.Err? {
        return Refused(caller.error);
      }
      if userId !in users {
        return Refused(UserNotFound);
      }
      var user := users[userId];
      if isActive.Some? {
        user := user.(isActive := isActive.value);
      }
      if isVerified.Some? {
        user := user.(isVerified := isVerified.value);
      }
      users := users[userId := user];
      return Done;
    }

    method DeactivateUser(access: Token, userId: int) returns (outcome: Outcome)
      requires SchemaOk()
      modifies this`users
      ensures (State(), outcome) == Accounts.DeactivateUser(old(State()), access, userId)
    {
      var caller := RequirePermissions(access, {"users:delete"});
      if caller.Err? {
        return Refused(caller.error);
      }
      if userId !in users {
        return Refused(UserNotFound);
      }
      users := users[userId := users[userId].(isActive := false)];
      return Done;
    }

    method AssignRole(access: Token, userId: int, role: string) returns (outcome: Outcome)
      requires SchemaOk()
      modifies this`userRoles
      ensures (State(), outcome) == Accounts.AssignRole(old(State()), access, userId, role)
    {
      var caller := RequirePermissions(access, {"roles:manage"});
      if caller.Err? {
        return Refused(caller.error);
      }
      if userId !in users {
        return Refused(UserNotFound);
      }
      if role !in roles {
        return Refused(RoleNotFound);
      }
      if role !in RolesOf(userRoles, userId) {
        userRoles := userRoles + {(userId, role)};
      } else {
        assert userRoles + {(userId, role)} == userRoles;
      }
      return Done;
    }

    method RevokeRole(access: Token, userId: int, role: string) returns (outcome: Outcome)
      requires SchemaOk()
      modifies this`userRoles
      ensures (State(), outcome) == Accounts.RevokeRole(old(State()), access, userId, role)
    {
      var caller := RequirePermissions(access, {"roles:manage"});
      if caller.Err? {
        return Refused(caller.error);
      }
      if userId !in users {
        return Refused(UserNotFound);
      }
      userRoles := set p | p in userRoles && (p.0 != userId || p.1 != role);
      assert userRoles == old(userRoles) - {(userId, role)};
      return Done;
    }

    // ---------- app/api/oauth.py ----------

    method OAuthLogin(provider: string, state: string) returns (outcome: Outcome)
      modifies this`redis, this`usedStates
      ensures (State(), outcome) == Accounts.OAuthLogin(old(State()), provider, state)
    {
      var refusal := ClientRefusal(settings, provider);
      if refusal.Some? {
        return Refused(refusal.value);
      }
      redis := redis[OAuthState(state) := Entry(LOGIN_STATE, now + STATE_TTL_SECONDS * SECOND)];
      usedStates := usedStates + {state};
      return Done;
    }

    method OAuthLink(access: Token, provider: string, state: string) returns (outcome: Outcome)
      requires SchemaOk()
      modifies this`redis, this`usedStates
      ensures (State(), outcome) == Accounts.OAuthLink(old(State()), access, provider, state)
    {
      var caller := CurrentUser(access);
      if caller.Err? {
        return Refused(caller.error);
      }
      var refusal := ClientRefusal(settings, provider);
      if refusal.Some? {
        return Refused(refusal.value);
      }
      redis := redis[OAuthState(state) := Entry(LinkState(caller.value), now + STATE_TTL_SECONDS * SECOND)];
      usedStates := usedStates + {state};
      return Done;
    }

    method OAuthCallback(provider: string, state: string, identity: Option<Identity>, drawn: Drawn)
      returns (outcome: Outcome)
      requires SchemaOk()
      modifies this
      ensures (State(), outcome) == Accounts.OAuthCallback(old(State()), provider, state, identity, drawn)
    {
      var refusal := ClientRefusal(settings, provider);
      if refusal.Some? {
        return Refused(refusal.value);
      }
      var key := OAuthState(state);
      if !Live(redis, key, now) {
        return Refused(InvalidOAuthState);
      }
      var value := redis[key].value;
      redis := redis - {key};
      if identity.None? {
        return Refused(ProviderFailed);
      }
      var linkingUserId := LinkingUser(value);
      if linkingUserId.Some? {
        outcome := CompleteLinking(linkingUserId.value, provider, identity.value, drawn);
      } else {
        outcome := CompleteLogin(provider, identity.value, drawn);
      }
    }

    method CompleteLinking(userId: int, provider: string, identity: Identity, drawn: Drawn) returns (outcome: Outcome)
      requires SchemaOk()
      modifies this`links, this`issued
      ensures (State(), outcome) == Accounts.CompleteLinking(old(State()), userId, provider, identity, drawn)
    {
      var existing := LinkByIdentity(provider, identity.providerUserId);
      if existing.Some? && links[existing.value].userId != userId {
        return Refused(LinkedToAnotherUser);
      }
      if userId !in users {
        return Refused(UserNotFound);
      }
      if existing.None? {
        links := links[drawn.linkId := Link(userId, provider, identity.providerUserId, identity.email)];
      }
      outcome := IssueBoth(users[userId].email, drawn.accessJti, drawn.refreshJti);
    }

    method CompleteLogin(provider: string, identity: Identity, drawn: Drawn) returns (outcome: Outcome)
      requires SchemaOk()
      modifies this
      ensures (State(), outcome) == Accounts.CompleteLogin(old(State()), provider, identity, drawn)
    {
      var existing := LinkByIdentity(provider, identity.providerUserId);
      var user: Option<int>;
      if existing.Some? {
        user := if links[existing.value].userId in users then Some(links[existing.value].userId) else None;
      } else {
        if identity.email.None? {
          return Refused(NoEmailFromProvider);
        }
        user := UserByEmail(identity.email.value);
        if user.None? {
          users := users[drawn.userId := User(identity.email.value, None, true, true, now)];
          usedIds := usedIds + {drawn.userId};
          user := Some(drawn.userId);
        }
        links := links[drawn.linkId := Link(user.value, provider, identity.providerUserId, identity.email)];
      }
      if user.None? || !users[user.value].isActive {
        return Refused(AccountInactive);
      }
      outcome := IssueBoth(users[user.value].email, drawn.accessJti, drawn.refreshJti);
    }

    /** Which of several links of the provider goes is the database's choice. */
    method UnlinkProvider(access: Token, provider: string) returns (outcome: Outcome)
      requires SchemaOk()
      modifies this`links
      ensures exists picked :: Enabled(old(State()), Unlink(access, provider, picked))
                && (State(), outcome) == Accounts.UnlinkProvider(old(State()), access, provider, picked)
    {
      ghost var before := State();
      var caller := CurrentUser(access);
      if caller.Err? {
        assert Enabled(before, Unlink(access, provider, 0));
        return Refused(caller.error);
      }
      var matching := ProviderLinks(links, caller.value, provider);
      if matching == {} {
        assert Enabled(before, Unlink(access, provider, 0));
        return Refused(ProviderNotLinked);
      }
      assert |matching| != 0;
      ghost var any := Pick(matching);
      assert any in matching;
      var link :| link in matching;
      assert Enabled(before, Unlink(access, provider, link));
      var remaining := |LinksOf(links, caller.value)|;
      if users[caller.value].hashedPassword.None? && remaining <= 1 {
        return Refused(OnlySignInMethod);
      }
      links := links - {link};
      return Done;
    }

    // ---------- app/tasks/cleanup.py ----------

    /** `db.delete(user)`: the row goes, and with it the rows that refer to it. */
    method DeleteUser(id: int)
      modifies this`users, this`links, this`userRoles
      ensures State() == DeleteUsers(old(State()), {id})
    {
      users := users - {id};
      links := map l | l in links && links[l].userId !in {id} :: links[l];
      userRoles := set p | p in userRoles && p.0 !in {id};
    }

    /** Deletes the stale users one by one and reports how many there were. */
    method CleanupUnverifiedUsers() returns (outcome: Outcome)
      modifies this`users, this`links, this`userRoles
      ensures (State(), outcome) == Accounts.CleanupUnverifiedUsers(old(State()))
    {
      var cutoff := now - UNVERIFIED_USER_MAX_AGE;
      var staleUsers := Stale(users, cutoff);
      DeleteAll(staleUsers);
      return Deleted(|staleUsers|);
    }

    method DeleteAll(ids: set<int>)
      modifies this`users, this`links, this`userRoles
      ensures State() == DeleteUsers(old(State()), ids)
    {
      var left := ids;
      ghost var before, done: set<int> := State(), {};
      DeleteNothing(before);
      while left != {}
        invariant done !! left && done + left == ids
        invariant State() == DeleteUsers(before, done)
        decreases left
      {
        assert |left| != 0;
        ghost var any := Pick(left);
        assert any in left;
        var id :| id in left;
        DeleteUser(id);
        DeletingComposes(before, done, {id});
        left, done := left - {id}, done + {id};
      }
      assert done == ids;
    }
  }

  lemma DeleteNothing(w: World)
    ensures DeleteUsers(w, {}) == w
  {
    var w' := DeleteUsers(w, {});
    assert w'.users == w.users && w'.links == w.links && w'.userRoles == w.userRoles;
  }
}
