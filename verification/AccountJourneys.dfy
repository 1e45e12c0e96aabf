// What users get: tokens that work, for as long as they should, and requests that lead to one another.
module AccountJourneys {
  import opened Wrappers
  import opened Accounts
  import opened AccountInvariants
  import opened AccountRuns
  import opened AccountTokens
  import Decimal
  import Rbac

  // ---------- issued tokens work ----------

  /** Access tokens live a minute or more, refresh tokens a day or more, and nothing expires before `exp`. */
  predicate PositiveLifetimes(settings: Settings) {
    settings.accessMinutes >= 1 && settings.refreshDays >= 1 && settings.grace >= 0
  }

  /** For this long from now on a token with this lifetime decodes whatever fraction of a second `exp` loses. */
  predicate Lasts(micros: nat, lifetime: int) {
    micros <= lifetime - 1_000_000
  }

  /** The access token acts for the user, over HTTP and WebSockets, until the last second of its lifetime. */
  ghost predicate AccessWorks(w: World, access: Token, userId: int) {
    forall micros: nat :: Lasts(micros, w.settings.accessMinutes * 60_000_000) ==>
      CurrentUser(Later(w, micros), access) == Ok(userId) && CurrentUserWs(Later(w, micros), access) == Some(userId)
  }

  /** For as long as it lasts, the refresh token is exchanged for access tokens that work. */
  ghost predicate RefreshWorks(w: World, refresh: Token, userId: int) {
    forall micros: nat, jti ::
      Lasts(micros, w.settings.refreshDays * 86_400_000_000) && JtiFresh(w, jti) ==>
        RefreshesFor(Later(w, micros), refresh, jti, userId)
  }

  ghost predicate RefreshesFor(w: World, refresh: Token, jti: string, userId: int) {
    var (w', outcome) := RefreshAccessToken(w, refresh, jti);
    outcome.Refreshed? && AccessWorks(w', outcome.token, userId)
  }

  lemma ExpiryBounds(w: World, kind: TokenType, subject: string, jti: string)
    ensures
      var exp := CreateToken(w, kind, subject, jti).exp;
      w.now + Lifetime(w.settings, kind) - 1_000_000 < exp <= w.now + Lifetime(w.settings, kind)
  {
  }

  /** A new jti is on no list. */
  lemma FreshIsUnmarked(w: World, jti: string)
    requires Inv(w) && JtiFresh(w, jti)
    ensures BlacklistedToken(jti) !in w.redis && UsedToken(jti) !in w.redis
  {
  }

  lemma IssuedAccessWorks(w: World, access: Token, userId: int)
    requires UsersInv(w) && PositiveLifetimes(w.settings) && ActiveWithEmail(w, userId, access.subject)
    requires access.kind == AccessToken && access in w.issued && BlacklistedToken(access.jti) !in w.redis
    requires access.exp > w.now + w.settings.accessMinutes * 60_000_000 - 1_000_000
    ensures AccessWorks(w, access, userId)
  {
    forall micros: nat | Lasts(micros, w.settings.accessMinutes * 60_000_000)
      ensures CurrentUser(Later(w, micros), access) == Ok(userId)
      ensures CurrentUserWs(Later(w, micros), access) == Some(userId)
    {
      assert Decodes(Later(w, micros), access, AccessToken);
    }
  }

  lemma IssuedRefreshWorks(w: World, refresh: Token, userId: int)
    requires Inv(w) && PositiveLifetimes(w.settings) && ActiveWithEmail(w, userId, refresh.subject)
    requires refresh.kind == RefreshToken && refresh in w.issued && BlacklistedToken(refresh.jti) !in w.redis
    requires refresh.exp > w.now + w.settings.refreshDays * 86_400_000_000 - 1_000_000
    ensures RefreshWorks(w, refresh, userId)
  {
    forall micros: nat, jti | Lasts(micros, w.settings.refreshDays * 86_400_000_000) && JtiFresh(w, jti)
      ensures RefreshesFor(Later(w, micros), refresh, jti, userId)
    {
      var later := Later(w, micros);
      assert Decodes(later, refresh, RefreshToken);
      FreshIsUnmarked(w, jti);
      RefreshedWorks(later, refresh, jti, userId);
    }
  }

  /** A refresh token that decodes, is not revoked and names an active user brings a working access token. */
  lemma RefreshedWorks(w: World, refresh: Token, jti: string, userId: int)
    requires UsersInv(w) && PositiveLifetimes(w.settings) && ActiveWithEmail(w, userId, refresh.subject)
    requires Decodes(w, refresh, RefreshToken) && BlacklistedToken(refresh.jti) !in w.redis
    requires BlacklistedToken(jti) !in w.redis
    ensures RefreshesFor(w, refresh, jti, userId)
  {
    var (w', outcome) := RefreshAccessToken(w, refresh, jti);
    assert UserByEmail(w.users, refresh.subject) == Some(userId);
    ExpiryBounds(w, AccessToken, refresh.subject, jti);
    IssuedAccessWorks(w', outcome.token, userId);
  }

  lemma SignInWorks(w: World, userId: int, accessJti: string, refreshJti: string)
    requires Inv(w) && PositiveLifetimes(w.settings) && userId in w.users && w.users[userId].isActive
    requires JtiFresh(w, accessJti) && JtiFresh(w, refreshJti) && accessJti != refreshJti
    ensures
      var (w', outcome) := SignIn(w, w.users[userId].email, accessJti, refreshJti);
      outcome.SignedIn? && AccessWorks(w', outcome.access, userId) && RefreshWorks(w', outcome.refresh, userId)
  {
    var email := w.users[userId].email;
    var (w', outcome) := SignIn(w, email, accessJti, refreshJti);
    BothIssued(w, email, accessJti, refreshJti);
    FreshIsUnmarked(w, accessJti);
    FreshIsUnmarked(w, refreshJti);
    ExpiryBounds(w, AccessToken, email, accessJti);
    ExpiryBounds(w, RefreshToken, email, refreshJti);
    IssuedAccessWorks(w', outcome.access, userId);
    IssuedRefreshWorks(w', outcome.refresh, userId);
  }

  /** The tokens of a sign-in work for the user with this email. */
  ghost predicate TokensWorkFor(w: World, outcome: Outcome, userId: int) {
    outcome.SignedIn? && AccessWorks(w, outcome.access, userId) && RefreshWorks(w, outcome.refresh, userId)
  }

  /** After a successful login both tokens work, each in its own place, for the user with the given email. */
  lemma LoginTokensWork(w: World, email: string, password: string, accessJti: string, refreshJti: string)
    requires Inv(w) && PositiveLifetimes(w.settings) && Enabled(w, Login(email, password, accessJti, refreshJti))
    requires LoginUser(w, email, password, accessJti, refreshJti).1.SignedIn?
    ensures
      var (w', outcome) := LoginUser(w, email, password, accessJti, refreshJti);
      exists userId :: ActiveWithEmail(w, userId, Lower(email)) && TokensWorkFor(w', outcome, userId)
  {
    var userId := UserByEmail(w.users, Lower(email)).value;
    SignInWorks(w, userId, accessJti, refreshJti);
    assert ActiveWithEmail(w, userId, Lower(email));
  }

  /** After a sign-in callback both tokens work for the user they name. */
  lemma CallbackTokensWork(w: World, provider: string, identity: Identity, drawn: Drawn)
    requires Inv(w) && PositiveLifetimes(w.settings) && drawn.userId !in w.usedIds && drawn.linkId !in w.links
    requires JtiFresh(w, drawn.accessJti) && JtiFresh(w, drawn.refreshJti) && drawn.accessJti != drawn.refreshJti
    requires CompleteLogin(w, provider, identity, drawn).1.SignedIn?
    ensures
      var (w', outcome) := CompleteLogin(w, provider, identity, drawn);
      exists userId :: ActiveWithEmail(w', userId, outcome.access.subject) && TokensWorkFor(w', outcome, userId)
  {
    var (w', outcome) := CompleteLogin(w, provider, identity, drawn);
    var before, userId := BeforeSignIn(w, provider, identity, drawn);
    SignInWorks(before, userId, drawn.accessJti, drawn.refreshJti);
    assert ActiveWithEmail(w', userId, outcome.access.subject);
  }

  /** The state in which a sign-in callback issues its tokens, and the user it issues them to. */
  lemma BeforeSignIn(w: World, provider: string, identity: Identity, drawn: Drawn) returns (before: World, userId: int)
    requires Inv(w) && drawn.userId !in w.usedIds && drawn.linkId !in w.links
    requires JtiFresh(w, drawn.accessJti) && JtiFresh(w, drawn.refreshJti)
    requires CompleteLogin(w, provider, identity, drawn).1.SignedIn?
    ensures Inv(before) && before.settings == w.settings && userId in before.users && before.users[userId].isActive
    ensures JtiFresh(before, drawn.accessJti) && JtiFresh(before, drawn.refreshJti)
    ensures CompleteLogin(w, provider, identity, drawn)
      == SignIn(before, before.users[userId].email, drawn.accessJti, drawn.refreshJti)
  {
    match LinkByIdentity(w.links, provider, identity.providerUserId)
    case Some(l) =>
      before, userId := w, w.links[l].userId;
    case None =>
      match UserByEmail(w.users, identity.email.value)
      case Some(id) =>
        LinkAdded(w, drawn.linkId, id, provider, identity);
        before, userId := AddLink(w, drawn.linkId, id, provider, identity), id;
      case None =>
        var user := User(identity.email.value, None, true, true, w.now);
        LinkedUserAdded(w, drawn.userId, user, drawn.linkId, provider, identity);
        var w' := w.(users := w.users[drawn.userId := user], usedIds := w.usedIds + {drawn.userId});
        before, userId := AddLink(w', drawn.linkId, drawn.userId, provider, identity), drawn.userId;
  }

  /** After a linking callback both tokens work for the user who started the linking, if that user is active. */
  lemma LinkingTokensWork(w: World, userId: int, provider: string, identity: Identity, drawn: Drawn)
    requires Inv(w) && PositiveLifetimes(w.settings) && drawn.linkId !in w.links
    requires JtiFresh(w, drawn.accessJti) && JtiFresh(w, drawn.refreshJti) && drawn.accessJti != drawn.refreshJti
    requires CompleteLinking(w, userId, provider, identity, drawn).1.SignedIn? && w.users[userId].isActive
    ensures
      var (w', outcome) := CompleteLinking(w, userId, provider, identity, drawn);
      TokensWorkFor(w', outcome, userId)
  {
    var existing := LinkByIdentity(w.links, provider, identity.providerUserId);
    var before := if existing.None? then AddLink(w, drawn.linkId, userId, provider, identity) else w;
    if existing.None? {
      LinkAdded(w, drawn.linkId, userId, provider, identity);
    }
    SignInWorks(before, userId, drawn.accessJti, drawn.refreshJti);
  }

  // ---------- types and lifetimes ----------

  /** In microseconds, by type. */
  function LifetimeMicros(settings: Settings, kind: TokenType): int {
    match kind
    case AccessToken => settings.accessMinutes * 60_000_000
    case RefreshToken => settings.refreshDays * 86_400_000_000
    case EmailVerification => 1_800_000_000
    case PasswordReset => 900_000_000
  }

  /** A new token decodes until the last second of its lifetime and not beyond its lifetime and the grace. */
  lemma LifetimesHold(w: World, kind: TokenType, subject: string, jti: string, micros: nat)
    requires w.settings.grace >= 0 && CreateToken(w, kind, subject, jti) in w.issued
    ensures Lasts(micros, LifetimeMicros(w.settings, kind)) ==>
              Decodes(Later(w, micros), CreateToken(w, kind, subject, jti), kind)
    ensures micros >= LifetimeMicros(w.settings, kind) + w.settings.grace ==>
              !Decodes(Later(w, micros), CreateToken(w, kind, subject, jti), kind)
  {
    ExpiryBounds(w, kind, subject, jti);
  }

  /** No token serves two purposes. */
  lemma TypesDoNotMix(w: World, token: Token, refresh: Option<Token>, jti: string, password: string)
    ensures CurrentUser(w, token).Ok? ==> token.kind == AccessToken
    ensures Logout(w, token, refresh).1 == Done ==> token.kind == AccessToken
    ensures RefreshAccessToken(w, token, jti).1.Refreshed? ==> token.kind == RefreshToken
    ensures VerifyEmail(w, token).1 == Done ==> token.kind == EmailVerification
    ensures ResetPassword(w, token, password).1 == Done ==> token.kind == PasswordReset
  {
  }

  // ---------- register, verify, log in ----------

  /**
   * A new user can log in with the registered email and password once the email is verified, and not before; the
   * token handed out by registration verifies it, for thirty minutes but their last second.
   */
  lemma RegisterVerifyLogin(w: World, email: string, password: string, id: int, jti: string, micros: nat,
                            accessJti: string, refreshJti: string)
    requires Inv(w) && w.settings.grace >= 0 && EmailFree(w, Lower(email)) && id !in w.usedIds && JtiFresh(w, jti)
    requires Lasts(micros, 30 * 60_000_000)
    ensures
      var (registered, outcome) := RegisterUser(w, email, password, id, jti);
      && outcome.Registered? && outcome.id == id
      && LoginUser(registered, email, password, accessJti, refreshJti).1 == Refused(EmailNotVerified)
      && var (verified, answer) := VerifyEmail(Later(registered, micros), outcome.verification);
         answer == Done && LoginUser(verified, email, password, accessJti, refreshJti).1.SignedIn?
  {
    var (registered, outcome) := RegisterUser(w, email, password, id, jti);
    RegisterKeepsInv(w, email, password, id, jti);
    var token := outcome.verification;
    FreshIsUnmarked(w, jti);
    ExpiryBounds(w, EmailVerification, Decimal.IntText(id), jti);
    var later := Later(registered, micros);
    assert Decodes(later, token, EmailVerification);
    assert registered.users[id].email == Lower(email);
    OnlyOwnerHasEmail(registered, registered, id);
    UnverifiedIsVerified(later, token, id);
    OnlyOwnerHasEmail(registered, VerifyEmail(later, token).0, id);
  }

  lemma UnverifiedIsVerified(w: World, token: Token, id: int)
    requires Decodes(w, token, EmailVerification) && token.subject == Decimal.IntText(id)
    requires id in w.users && !w.users[id].isVerified && UsedToken(token.jti) !in w.redis
    ensures VerifyEmail(w, token).1 == Done
    ensures VerifyEmail(w, token).0.users == w.users[id := w.users[id].(isVerified := true)]
  {
    Decimal.ParseIntText(id);
  }

  /** A change of one user's row that keeps the email keeps who is found by it. */
  lemma OnlyOwnerHasEmail(w: World, w': World, id: int)
    requires UsersInv(w) && id in w.users && w'.users.Keys == w.users.Keys
    requires forall other :: other in w.users ==> w'.users[other].email == w.users[other].email
    ensures UserByEmail(w'.users, w.users[id].email) == Some(id)
  {
    assert w'.users[id].email == w.users[id].email;
  }

  /** A successful verification turns exactly its user's flag on. */
  lemma VerificationVerifies(w: World, token: Token, userId: int)
    requires VerifyEmail(w, token).1 == Done && token.subject == Decimal.IntText(userId)
    ensures
      var w' := VerifyEmail(w, token).0;
      && userId in w.users && w'.users == w.users[userId := w.users[userId].(isVerified := true)]
      && w'.links == w.links && w'.userRoles == w.userRoles && w'.issued == w.issued && w'.now == w.now
      && forall key :: key != UsedToken(token.jti) ==>
           (key in w'.redis <==> key in w.redis) && (key in w.redis ==> w'.redis[key] == w.redis[key])
  {
    Decimal.ParseIntText(userId);
  }

  // ---------- forgot, reset, log in ----------

  /**
   * Any active user who asks gets a token that sets a new password, for fifteen minutes but their last second; then
   * login takes the new password and no other.
   */
  lemma ForgotResetLogin(w: World, id: int, given: string, jti: string, micros: nat, password: string, other: string,
                         accessJti: string, refreshJti: string)
    requires Inv(w) && w.settings.grace >= 0 && JtiFresh(w, jti) && ActiveWithEmail(w, id, Lower(given))
    requires Lasts(micros, 15 * 60_000_000) && w.users[id].hashedPassword != Some(Hash(password)) && other != password
    ensures
      var (asked, mailed) := ForgotPassword(w, given, jti);
      && mailed.Mailed? && mailed.reset.Some?
      && var (reset, answer) := ResetPassword(Later(asked, micros), mailed.reset.value, password);
         && answer == Done
         && (LoginUser(reset, given, password, accessJti, refreshJti).1.SignedIn? <==> w.users[id].isVerified)
         && LoginUser(reset, given, other, accessJti, refreshJti).1 == Refused(InvalidCredentials)
  {
    var (asked, mailed) := ForgotPassword(w, given, jti);
    assert UserByEmail(w.users, Lower(given)) == Some(id);
    var token := mailed.reset.value;
    FreshIsUnmarked(w, jti);
    ExpiryBounds(w, PasswordReset, Decimal.IntText(id), jti);
    Decimal.ParseIntText(id);
    var later := Later(asked, micros);
    assert Decodes(later, token, PasswordReset);
    var reset := ResetPassword(later, token, password).0;
    assert reset.users == w.users[id := w.users[id].(hashedPassword := Some(Hash(password)))];
    OnlyOwnerHasEmail(w, reset, id);
  }

  // ---------- starting and finishing with a provider ----------

  /** A state is good for ten minutes: a callback within them gets past the state check, a later one does not. */
  lemma StateLastsTenMinutes(w: World, provider: string, state: string, micros: nat, identity: Option<Identity>,
                             drawn: Drawn)
    requires OAuthLogin(w, provider, state).1 == Done
    ensures
      var outcome := OAuthCallback(Later(OAuthLogin(w, provider, state).0, micros), provider, state, identity, drawn).1;
      outcome == Refused(InvalidOAuthState) <==> micros >= 600_000_000
  {
    var later := Later(OAuthLogin(w, provider, state).0, micros);
    assert Live(later.redis, OAuthState(state), later.now) <==> micros < 600_000_000;
    LinkStateRoundTrip(0);
  }

  /** The same for a linking. */
  lemma LinkStateLastsTenMinutes(w: World, access: Token, provider: string, state: string, micros: nat,
                                 identity: Option<Identity>, drawn: Drawn)
    requires OAuthLink(w, access, provider, state).1 == Done
    ensures
      var started := Later(OAuthLink(w, access, provider, state).0, micros);
      var outcome := OAuthCallback(started, provider, state, identity, drawn).1;
      outcome == Refused(InvalidOAuthState) <==> micros >= 600_000_000
  {
    var started := Later(OAuthLink(w, access, provider, state).0, micros);
    assert Live(started.redis, OAuthState(state), started.now) <==> micros < 600_000_000;
    LinkStateRoundTrip(CurrentUser(w, access).value);
  }

  /**
   * A newcomer's first sign-in with a provider creates an account with that email, and every later sign-in with the
   * same identity, whatever email the provider then names, is the same account.
   */
  lemma NewcomerSignsIn(w: World, provider: string, identity: Identity, drawn: Drawn, again: Identity, drawn': Drawn)
    requires Inv(w) && drawn.userId !in w.usedIds && drawn.linkId !in w.links
    requires identity.email.Some? && EmailFree(w, identity.email.value)
    requires LinkByIdentity(w.links, provider, identity.providerUserId).None?
    requires again.providerUserId == identity.providerUserId
    ensures
      var (w', outcome) := CompleteLogin(w, provider, identity, drawn);
      && outcome.SignedIn? && outcome.access.subject == identity.email.value
      && drawn.userId in w'.users && w'.users[drawn.userId].email == identity.email.value
      && var (w'', repeated) := CompleteLogin(w', provider, again, drawn');
         repeated.SignedIn? && repeated.access.subject == identity.email.value
         && w''.users == w'.users && w''.links == w'.links
  {
    var user := User(identity.email.value, None, true, true, w.now);
    LinkedUserAdded(w, drawn.userId, user, drawn.linkId, provider, identity);
    var w' := CompleteLogin(w, provider, identity, drawn).0;
    assert IsIdentity(w'.links[drawn.linkId], provider, again.providerUserId);
    var found := LinkByIdentity(w'.links, provider, again.providerUserId);
    assert SameIdentity(w'.links[found.value], w'.links[drawn.linkId]);
  }

  /** A linked identity signs its user in from then on, until unlinked. */
  lemma LinkedSignsIn(w: World, userId: int, provider: string, identity: Identity, drawn: Drawn, drawn': Drawn)
    requires Inv(w) && drawn.linkId !in w.links && userId in w.users && w.users[userId].isActive
    requires LinkByIdentity(w.links, provider, identity.providerUserId).None?
    ensures
      var (linked, outcome) := CompleteLinking(w, userId, provider, identity, drawn);
      && outcome.SignedIn?
      && var (w', repeated) := CompleteLogin(linked, provider, identity, drawn');
         repeated.SignedIn? && repeated.access.subject == w.users[userId].email
  {
    var linked := CompleteLinking(w, userId, provider, identity, drawn).0;
    LinkAdded(w, drawn.linkId, userId, provider, identity);
    assert IsIdentity(linked.links[drawn.linkId], provider, identity.providerUserId);
    var found := LinkByIdentity(linked.links, provider, identity.providerUserId);
    assert SameIdentity(linked.links[found.value], linked.links[drawn.linkId]);
  }
}
