// Every row of the account tables, told from the history of requests and their outcomes.
module AccountLedger {
  import opened Wrappers
  import opened Accounts
  import opened AccountInvariants
  import opened AccountRuns
  import opened AccountTokens
  import Decimal

  // ---------- users ----------

  /** What a user's row says. */
  datatype Facts = Facts(email: string, password: Option<string>, active: bool, verified: bool, createdAt: int)

  function FactsOf(user: User): Facts {
    var password := if user.hashedPassword.Some? then Some(user.hashedPassword.value.password) else None;
    Facts(user.email, password, user.isActive, user.isVerified, user.createdAt)
  }

  function Row(w: World, userId: int): Option<Facts> {
    if userId in w.users then Some(FactsOf(w.users[userId])) else None
  }

  /** Unverified for more than seven days. */
  predicate Overdue(facts: Facts, now: int) {
    !facts.verified && facts.createdAt < now - 7 * 24 * 60 * 60 * 1_000_000
  }

  /** A sign-in callback created this user: it signed in under an email that nobody had. */
  ghost predicate Creates(w: World, step: Step, userId: int) {
    && step.Callback? && step.drawn.userId == userId && step.identity.Some? && step.identity.value.email.Some?
    && EmailFree(w, step.identity.value.email.value)
    && SignedInAs(OAuthCallback(w, step.provider, step.state, step.identity, step.drawn).1,
                  step.identity.value.email.value)
  }

  /** What one request makes of what is known about a user, told from the request and its outcome. */
  ghost function After(w: World, step: Step, userId: int, facts: Option<Facts>): Option<Facts> {
    match step
    case Register(email, password, id, jti) =>
      if id == userId && RegisterUser(w, email, password, id, jti).1.Registered? then
        Some(Facts(Lower(email), Some(password), true, false, w.now))
      else
        facts
    case Callback(_, _, identity, _) =>
      if Creates(w, step, userId) then Some(Facts(identity.value.email.value, None, true, true, w.now)) else facts
    case Cleanup => if facts.Some? && Overdue(facts.value, w.now) then None else facts
    case _ => if facts.None? then None else Some(Changed(w, step, userId, facts.value))
  }

  /** What one request changes about a user who exists. */
  ghost function Changed(w: World, step: Step, userId: int, facts: Facts): Facts {
    match step
    case Verification(token) =>
      if VerifyEmail(w, token).1 == Done && token.subject == Decimal.IntText(userId) then
        facts.(verified := true)
      else
        facts
    case Reset(token, password) =>
      if ResetPassword(w, token, password).1 == Done && token.subject == Decimal.IntText(userId) then
        facts.(password := Some(password))
      else
        facts
    case UpdateEmail(access, email) =>
      if UpdateUserEmail(w, access, email).1 == Done && CurrentUser(w, access) == Ok(userId) then
        facts.(email := Lower(email))
      else
        facts
    case ChangePassword(access, currentPassword, newPassword) =>
      if ChangeUserPassword(w, access, currentPassword, newPassword).1 == Done && CurrentUser(w, access) == Ok(userId)
      then
        facts.(password := Some(newPassword))
      else
        facts
    case Deactivate(access) => if CurrentUser(w, access) == Ok(userId) then facts.(active := false) else facts
    case AdminUpdate(access, id, isActive, isVerified) =>
      if id == userId && UpdateUserStatus(w, access, id, isActive, isVerified).1 == Done then
        facts.(active := if isActive.Some? then isActive.value else facts.active,
               verified := if isVerified.Some? then isVerified.value else facts.verified)
      else
        facts
    case AdminDeactivate(access, id) =>
      if id == userId && DeactivateUser(w, access, id).1 == Done then facts.(active := false) else facts
    case _ => facts
  }

  /** What the first `i` steps of a run say about a user. */
  ghost function Recorded(worlds: seq<World>, steps: seq<Step>, i: nat, userId: int): Option<Facts>
    requires i <= |steps| && |worlds| == |steps| + 1
  {
    if i == 0 then None
    else After(worlds[i - 1], steps[i - 1], userId, Recorded(worlds, steps, i - 1, userId))
  }

  lemma RegisterRecords(w: World, email: string, password: string, id: int, jti: string, userId: int)
    ensures Row(RegisterUser(w, email, password, id, jti).0, userId)
      == After(w, Register(email, password, id, jti), userId, Row(w, userId))
  {
  }

  lemma VerifyRecords(w: World, token: Token, userId: int)
    requires SubjectsInv(w)
    ensures Row(VerifyEmail(w, token).0, userId) == After(w, Verification(token), userId, Row(w, userId))
  {
    if VerifyEmail(w, token).1 == Done {
      SubjectNames(w, token, userId);
    }
  }

  lemma ResetRecords(w: World, token: Token, password: string, userId: int)
    requires SubjectsInv(w)
    ensures Row(ResetPassword(w, token, password).0, userId) == After(w, Reset(token, password), userId, Row(w, userId))
  {
    if ResetPassword(w, token, password).1 == Done {
      SubjectNames(w, token, userId);
    }
  }

  /** The subject of a verification or reset token is the text of one id. */
  lemma SubjectNames(w: World, token: Token, userId: int)
    requires SubjectsInv(w) && token in w.issued && (token.kind == EmailVerification || token.kind == PasswordReset)
    ensures token.subject == Decimal.IntText(userId) <==> Decimal.ParseInt(token.subject) == Some(userId)
  {
    var id :| id in w.usedIds && token.subject == Decimal.IntText(id);
    Decimal.ParseIntText(id);
    Decimal.ParseIntText(userId);
  }

  lemma UpdateEmailRecords(w: World, access: Token, email: string, userId: int)
    ensures Row(UpdateUserEmail(w, access, email).0, userId)
      == After(w, UpdateEmail(access, email), userId, Row(w, userId))
  {
  }

  lemma ChangePasswordRecords(w: World, access: Token, currentPassword: string, newPassword: string, userId: int)
    ensures Row(ChangeUserPassword(w, access, currentPassword, newPassword).0, userId)
      == After(w, ChangePassword(access, currentPassword, newPassword), userId, Row(w, userId))
  {
  }

  lemma DeactivateRecords(w: World, access: Token, userId: int)
    ensures Row(DeactivateSelf(w, access).0, userId) == After(w, Deactivate(access), userId, Row(w, userId))
  {
  }

  lemma AdminUpdateRecords(w: World, access: Token, id: int, isActive: Option<bool>, isVerified: Option<bool>,
                           userId: int)
    ensures Row(UpdateUserStatus(w, access, id, isActive, isVerified).0, userId)
      == After(w, AdminUpdate(access, id, isActive, isVerified), userId, Row(w, userId))
  {
  }

  lemma AdminDeactivateRecords(w: World, access: Token, id: int, userId: int)
    ensures Row(DeactivateUser(w, access, id).0, userId)
      == After(w, AdminDeactivate(access, id), userId, Row(w, userId))
  {
  }

  lemma CleanupRecords(w: World, userId: int)
    ensures Row(CleanupUnverifiedUsers(w).0, userId) == After(w, Cleanup, userId, Row(w, userId))
  {
  }

  lemma LinkingLeavesUsers(w: World, userId: int, provider: string, identity: Identity, drawn: Drawn)
    ensures CompleteLinking(w, userId, provider, identity, drawn).0.users == w.users
    ensures identity.email.Some? && EmailFree(w, identity.email.value) ==>
              !SignedInAs(CompleteLinking(w, userId, provider, identity, drawn).1, identity.email.value)
  {
  }

  lemma LoginCreates(w: World, provider: string, identity: Identity, drawn: Drawn, userId: int)
    requires UsersInv(w) && ReferencesInv(w) && drawn.userId !in w.users
    ensures
      var (w', outcome) := CompleteLogin(w, provider, identity, drawn);
      var created := identity.email.Some? && EmailFree(w, identity.email.value)
                     && SignedInAs(outcome, identity.email.value) && userId == drawn.userId;
      Row(w', userId)
        == if created then Some(Facts(identity.email.value, None, true, true, w.now)) else Row(w, userId)
  {
  }

  lemma CallbackRecords(w: World, provider: string, state: string, identity: Option<Identity>, drawn: Drawn,
                        userId: int)
    requires UsersInv(w) && ReferencesInv(w) && drawn.userId !in w.users
    ensures Row(OAuthCallback(w, provider, state, identity, drawn).0, userId)
      == After(w, Callback(provider, state, identity, drawn), userId, Row(w, userId))
  {
    var consumed := w.(redis := w.redis - {OAuthState(state)});
    if ClientRefusal(w.settings, provider).None? && Live(w.redis, OAuthState(state), w.now) && identity.Some? {
      match LinkingUser(w.redis[OAuthState(state)].value)
      case Some(linking) => LinkingLeavesUsers(consumed, linking, provider, identity.value, drawn);
      case None => LoginCreates(consumed, provider, identity.value, drawn, userId);
    }
  }

  /** All other steps. */
  predicate LeavesUsers(step: Step) {
    step.Tick? || step.Login? || step.Refresh? || step.LogOut? || step.Forgot? || step.AdminAssign? || step.AdminRevoke?
    || step.StartLogin? || step.StartLink? || step.Unlink? || step.DatabaseGrant?
  }

  lemma UsersLeftAlone(w: World, step: Step)
    requires LeavesUsers(step)
    ensures Next(w, step).users == w.users
  {
  }

  lemma StepRecords(w: World, step: Step, userId: int)
    requires Inv(w) && SubjectsInv(w) && Enabled(w, step)
    ensures Row(Next(w, step), userId) == After(w, step, userId, Row(w, userId))
  {
    if LeavesUsers(step) {
      UsersLeftAlone(w, step);
    } else {
      match step
      case Register(email, password, id, jti) => RegisterRecords(w, email, password, id, jti, userId);
      case Verification(token) => VerifyRecords(w, token, userId);
      case Reset(token, password) => ResetRecords(w, token, password, userId);
      case UpdateEmail(access, email) => UpdateEmailRecords(w, access, email, userId);
      case ChangePassword(access, currentPassword, newPassword) =>
        ChangePasswordRecords(w, access, currentPassword, newPassword, userId);
      case Deactivate(access) => DeactivateRecords(w, access, userId);
      case AdminUpdate(access, id, isActive, isVerified) =>
        AdminUpdateRecords(w, access, id, isActive, isVerified, userId);
      case AdminDeactivate(access, id) => AdminDeactivateRecords(w, access, id, userId);
      case Callback(provider, state, identity, drawn) => CallbackRecords(w, provider, state, identity, drawn, userId);
      case Cleanup => CleanupRecords(w, userId);
    }
  }

  lemma RecordedAt(worlds: seq<World>, steps: seq<Step>, k: nat, userId: int)
    requires IsRun(worlds, steps) && k < |steps|
    ensures Row(worlds[k + 1], userId) == After(worlds[k], steps[k], userId, Row(worlds[k], userId))
  {
    RunKeepsInv(worlds, steps, k);
    RunKeepsSubjects(worlds, steps, k);
    StepRecords(worlds[k], steps[k], userId);
  }

  /**
   * In every run a user exists, with an email, a password, an active and a verified flag and a time of creation,
   * exactly as the requests and their outcomes say.
   */
  lemma {:induction false} RunRecords(worlds: seq<World>, steps: seq<Step>, i: nat, userId: int)
    requires IsRun(worlds, steps) && i < |worlds|
    ensures Row(worlds[i], userId) == Recorded(worlds, steps, i, userId)
  {
    if i > 0 {
      RunRecords(worlds, steps, i - 1, userId);
      RecordedAt(worlds, steps, i - 1, userId);
    }
  }

  ghost predicate MayLogIn(facts: Option<Facts>, email: string, password: string) {
    && facts.Some? && facts.value.email == Lower(email) && facts.value.password == Some(password)
    && facts.value.verified && facts.value.active
  }

  ghost predicate SomeoneMayLogIn(worlds: seq<World>, steps: seq<Step>, i: nat, email: string, password: string)
    requires i <= |steps| && |worlds| == |steps| + 1
  {
    exists userId :: MayLogIn(Recorded(worlds, steps, i, userId), email, password)
  }

  /** Login, decided by the history of requests alone. */
  lemma LoginMatchesHistory(worlds: seq<World>, steps: seq<Step>, i: nat, email: string, password: string,
                            accessJti: string, refreshJti: string)
    requires IsRun(worlds, steps) && i < |worlds|
    ensures LoginUser(worlds[i], email, password, accessJti, refreshJti).1.SignedIn?
      <==> SomeoneMayLogIn(worlds, steps, i, email, password)
  {
    RunKeepsInv(worlds, steps, i);
    var w := worlds[i];
    if LoginUser(w, email, password, accessJti, refreshJti).1.SignedIn? {
      var id := UserByEmail(w.users, Lower(email)).value;
      RunRecords(worlds, steps, i, id);
      assert MayLogIn(Recorded(worlds, steps, i, id), email, password);
    }
    if SomeoneMayLogIn(worlds, steps, i, email, password) {
      var id :| MayLogIn(Recorded(worlds, steps, i, id), email, password);
      RunRecords(worlds, steps, i, id);
      LoginOf(w, id, email, password, accessJti, refreshJti);
    }
  }

  lemma LoginOf(w: World, id: int, email: string, password: string, accessJti: string, refreshJti: string)
    requires UsersInv(w) && MayLogIn(Row(w, id), email, password)
    ensures LoginUser(w, email, password, accessJti, refreshJti).1.SignedIn?
    ensures UserByEmail(w.users, Lower(email)) == Some(id)
  {
    assert w.users[id].email == Lower(email);
  }

  // ---------- roles ----------

  /** Whether a user holds a role after one request, told from the request, its outcome, and whether the user goes. */
  ghost function HoldsAfter(w: World, step: Step, userId: int, role: string, held: bool): bool {
    match step
    case Register(email, password, id, jti) =>
      held || (id == userId && role == "user" && "user" in w.roles
               && RegisterUser(w, email, password, id, jti).1.Registered?)
    case AdminAssign(access, id, given) =>
      held || (id == userId && given == role && AssignRole(w, access, id, given).1 == Done)
    case AdminRevoke(access, id, taken) =>
      held && !(id == userId && taken == role && RevokeRole(w, access, id, taken).1 == Done)
    case DatabaseGrant(id, given) => held || (id == userId && given == role)
    case Cleanup => held && !(Row(w, userId).Some? && Overdue(Row(w, userId).value, w.now))
    case _ => held
  }

  predicate LeavesRoles(step: Step) {
    !step.Register? && !step.AdminAssign? && !step.AdminRevoke? && !step.DatabaseGrant? && !step.Cleanup?
      && !step.Callback?
  }

  lemma RolesLeftAlone(w: World, step: Step)
    requires LeavesRoles(step)
    ensures Next(w, step).userRoles == w.userRoles
  {
  }

  lemma CallbackLeavesRoles(w: World, provider: string, state: string, identity: Option<Identity>, drawn: Drawn)
    ensures OAuthCallback(w, provider, state, identity, drawn).0.userRoles == w.userRoles
  {
  }

  lemma StepHoldsRoles(w: World, step: Step, userId: int, role: string)
    ensures (userId, role) in Next(w, step).userRoles
      <==> HoldsAfter(w, step, userId, role, (userId, role) in w.userRoles)
  {
    if LeavesRoles(step) {
      RolesLeftAlone(w, step);
    } else if step.Callback? {
      CallbackLeavesRoles(w, step.provider, step.state, step.identity, step.drawn);
    }
  }

  ghost function Holds(worlds: seq<World>, steps: seq<Step>, i: nat, userId: int, role: string): bool
    requires i <= |steps| && |worlds| == |steps| + 1
  {
    i > 0 && HoldsAfter(worlds[i - 1], steps[i - 1], userId, role, Holds(worlds, steps, i - 1, userId, role))
  }

  lemma HoldsAt(worlds: seq<World>, steps: seq<Step>, k: nat, userId: int, role: string)
    requires IsRun(worlds, steps) && k < |steps|
    ensures (userId, role) in worlds[k + 1].userRoles
      <==> HoldsAfter(worlds[k], steps[k], userId, role, (userId, role) in worlds[k].userRoles)
  {
    StepHoldsRoles(worlds[k], steps[k], userId, role);
  }

  /** In every run users hold exactly the roles that the requests gave them and did not take away again. */
  lemma {:induction false} RunHoldsRoles(worlds: seq<World>, steps: seq<Step>, i: nat, userId: int, role: string)
    requires IsRun(worlds, steps) && i < |worlds|
    ensures (userId, role) in worlds[i].userRoles <==> Holds(worlds, steps, i, userId, role)
  {
    if i > 0 {
      RunHoldsRoles(worlds, steps, i - 1, userId, role);
      HoldsAt(worlds, steps, i - 1, userId, role);
    }
  }

  // ---------- links ----------

  function LinkRow(w: World, l: int): Option<Link> {
    if l in w.links then Some(w.links[l]) else None
  }

  ghost predicate Unlinked(w: World, provider: string, providerUserId: string) {
    forall m :: m in w.links ==> w.links[m].provider != provider || w.links[m].providerUserId != providerUserId
  }

  /** Whom a callback acts for: the user who started the linking, or the one with the identity's email, or a new one. */
  ghost function ActsFor(w: World, step: Step): int
    requires step.Callback? && step.identity.Some?
  {
    var key := OAuthState(step.state);
    var linking := if key in w.redis then LinkingUser(w.redis[key].value) else None;
    if linking.Some? then
      linking.value
    else if step.identity.value.email.Some? && UserByEmail(w.users, step.identity.value.email.value).Some? then
      UserByEmail(w.users, step.identity.value.email.value).value
    else
      step.drawn.userId
  }

  /**
   * A callback for an identity nobody has adds a link if it signs in, and also if only the user's inactivity stops it.
   */
  ghost predicate AddsLink(w: World, step: Step, l: int) {
    && step.Callback? && step.identity.Some? && step.drawn.linkId == l
    && Unlinked(w, step.provider, step.identity.value.providerUserId)
    && var outcome := OAuthCallback(w, step.provider, step.state, step.identity, step.drawn).1;
       outcome.SignedIn? || outcome == Refused(AccountInactive)
  }

  /** What one request makes of a link, told from the request and its outcome. */
  ghost function LinkAfter(w: World, step: Step, l: int, link: Option<Link>): Option<Link> {
    match step
    case Callback(provider, _, identity, _) =>
      if AddsLink(w, step, l) then
        Some(Link(ActsFor(w, step), provider, identity.value.providerUserId, identity.value.email))
      else
        link
    case Unlink(access, provider, picked) =>
      if picked == l && UnlinkProvider(w, access, provider, picked).1 == Done then None else link
    case Cleanup =>
      if link.Some? && Row(w, link.value.userId).Some? && Overdue(Row(w, link.value.userId).value, w.now) then None
      else link
    case _ => link
  }

  lemma LinkingAdds(w: World, userId: int, provider: string, identity: Identity, drawn: Drawn, l: int)
    ensures
      var (w', outcome) := CompleteLinking(w, userId, provider, identity, drawn);
      var added := l == drawn.linkId && Unlinked(w, provider, identity.providerUserId)
                   && (outcome.SignedIn? || outcome == Refused(AccountInactive));
      LinkRow(w', l)
        == if added then Some(Link(userId, provider, identity.providerUserId, identity.email)) else LinkRow(w, l)
  {
    UnlinkedIff(w, provider, identity.providerUserId);
  }

  lemma UnlinkedIff(w: World, provider: string, providerUserId: string)
    ensures Unlinked(w, provider, providerUserId) <==> LinkByIdentity(w.links, provider, providerUserId).None?
  {
  }

  lemma LoginAdds(w: World, provider: string, identity: Identity, drawn: Drawn, l: int)
    ensures
      var (w', outcome) := CompleteLogin(w, provider, identity, drawn);
      var added := l == drawn.linkId && Unlinked(w, provider, identity.providerUserId)
                   && (outcome.SignedIn? || outcome == Refused(AccountInactive));
      var owner := if identity.email.Some? && UserByEmail(w.users, identity.email.value).Some?
                   then UserByEmail(w.users, identity.email.value).value else drawn.userId;
      LinkRow(w', l)
        == if added then Some(Link(owner, provider, identity.providerUserId, identity.email)) else LinkRow(w, l)
  {
    UnlinkedIff(w, provider, identity.providerUserId);
  }

  lemma CallbackLinks(w: World, provider: string, state: string, identity: Option<Identity>, drawn: Drawn, l: int)
    ensures LinkRow(OAuthCallback(w, provider, state, identity, drawn).0, l)
      == LinkAfter(w, Callback(provider, state, identity, drawn), l, LinkRow(w, l))
  {
    var consumed := w.(redis := w.redis - {OAuthState(state)});
    if ClientRefusal(w.settings, provider).None? && Live(w.redis, OAuthState(state), w.now) && identity.Some? {
      match LinkingUser(w.redis[OAuthState(state)].value)
      case Some(linking) => LinkingAdds(consumed, linking, provider, identity.value, drawn, l);
      case None => LoginAdds(consumed, provider, identity.value, drawn, l);
    }
  }

  lemma LinksLeftAlone(w: World, step: Step)
    requires !step.Callback? && !step.Unlink? && !step.Cleanup?
    ensures Next(w, step).links == w.links
  {
  }

  lemma StepLinks(w: World, step: Step, l: int)
    ensures LinkRow(Next(w, step), l) == LinkAfter(w, step, l, LinkRow(w, l))
  {
    if step.Callback? {
      CallbackLinks(w, step.provider, step.state, step.identity, step.drawn, l);
    } else if !step.Unlink? && !step.Cleanup? {
      LinksLeftAlone(w, step);
    }
  }

  ghost function Linked(worlds: seq<World>, steps: seq<Step>, i: nat, l: int): Option<Link>
    requires i <= |steps| && |worlds| == |steps| + 1
  {
    if i == 0 then None
    else LinkAfter(worlds[i - 1], steps[i - 1], l, Linked(worlds, steps, i - 1, l))
  }

  lemma LinkedAt(worlds: seq<World>, steps: seq<Step>, k: nat, l: int)
    requires IsRun(worlds, steps) && k < |steps|
    ensures LinkRow(worlds[k + 1], l) == LinkAfter(worlds[k], steps[k], l, LinkRow(worlds[k], l))
  {
    StepLinks(worlds[k], steps[k], l);
  }

  /** In every run the links are exactly those that callbacks added and no unlinking or cleanup removed. */
  lemma {:induction false} RunLinks(worlds: seq<World>, steps: seq<Step>, i: nat, l: int)
    requires IsRun(worlds, steps) && i < |worlds|
    ensures LinkRow(worlds[i], l) == Linked(worlds, steps, i, l)
  {
    if i > 0 {
      RunLinks(worlds, steps, i - 1, l);
      LinkedAt(worlds, steps, i - 1, l);
    }
  }
}
