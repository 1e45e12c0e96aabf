// What every handler keeps: unique emails and identities, no dangling references, a way to sign in
// for every user, unique jtis, and Redis marks that last almost as long as their token.
module AccountInvariants {
  import opened Wrappers
  import opened Accounts
  import Decimal

  // ---------- the invariants ----------

  ghost predicate EmailsUnique(users: map<int, User>) {
    forall a, b :: a in users && b in users && users[a].email == users[b].email ==> a == b
  }

  ghost predicate UsersInv(w: World) {
    EmailsUnique(w.users) && w.users.Keys <= w.usedIds
  }

  predicate SameIdentity(a: Link, b: Link) {
    a.provider == b.provider && a.providerUserId == b.providerUserId
  }

  ghost predicate IdentitiesUnique(links: map<int, Link>) {
    forall a, b :: a in links && b in links && SameIdentity(links[a], links[b]) ==> a == b
  }

  /** Every link and every role assignment names an existing user. */
  ghost predicate ReferencesInv(w: World) {
    && (forall l :: l in w.links ==> w.links[l].userId in w.users)
    && (forall p :: p in w.userRoles ==> p.0 in w.users)
  }

  ghost predicate HasLink(links: map<int, Link>, userId: int) {
    exists l :: l in links && links[l].userId == userId
  }

  /** Every user has a password or at least one OAuth link. */
  ghost predicate SignInInv(w: World) {
    forall id :: id in w.users ==> w.users[id].hashedPassword.Some? || HasLink(w.links, id)
  }

  ghost predicate JtisUnique(issued: set<Token>) {
    forall a, b :: a in issued && b in issued && a.jti == b.jti ==> a == b
  }

  ghost predicate HasJti(issued: set<Token>, jti: string) {
    exists token :: token in issued && token.jti == jti
  }

  /** A blacklist or used mark belongs to an issued token and outlasts the instant one second before its expiry. */
  ghost predicate MarksInv(w: World) {
    && (forall token :: token in w.issued && BlacklistedToken(token.jti) in w.redis ==>
          w.redis[BlacklistedToken(token.jti)].deadline > token.exp - SECOND)
    && (forall token :: token in w.issued && UsedToken(token.jti) in w.redis ==>
          w.redis[UsedToken(token.jti)].deadline > token.exp - SECOND)
    && (forall jti :: BlacklistedToken(jti) in w.redis || UsedToken(jti) in w.redis ==> HasJti(w.issued, jti))
  }

  ghost predicate TokensInv(w: World) {
    JtisUnique(w.issued) && MarksInv(w)
  }

  ghost predicate StateValue(value: string) {
    value == LOGIN_STATE || exists userId :: value == LinkState(userId)
  }

  /** OAuth states in Redis were drawn by the server and hold one of the two values it writes. */
  ghost predicate StatesInv(w: World) {
    forall state :: OAuthState(state) in w.redis ==>
      state in w.usedStates && StateValue(w.redis[OAuthState(state)].value)
  }

  ghost predicate Inv(w: World) {
    UsersInv(w) && IdentitiesUnique(w.links) && ReferencesInv(w) && SignInInv(w) && TokensInv(w) && StatesInv(w)
  }

  // ---------- what single effects keep ----------

  /** Changing a user's row, with an email nobody else has and a password that does not disappear. */
  lemma UserChanged(w: World, id: int, user: User)
    requires Inv(w) && id in w.users
    requires forall other :: other in w.users && w.users[other].email == user.email ==> other == id
    requires w.users[id].hashedPassword.Some? ==> user.hashedPassword.Some?
    ensures Inv(w.(users := w.users[id := user]))
  {
  }

  lemma TokenIssued(w: World, token: Token)
    requires Inv(w) && JtiFresh(w, token.jti)
    ensures Inv(w.(issued := w.issued + {token}))
  {
    var w' := w.(issued := w.issued + {token});
    forall jti | BlacklistedToken(jti) in w'.redis || UsedToken(jti) in w'.redis ensures HasJti(w'.issued, jti) {
      var t :| t in w.issued && t.jti == jti;
      assert t in w'.issued;
    }
    assert BlacklistedToken(token.jti) !in w.redis && UsedToken(token.jti) !in w.redis;
  }

  /** A mark written for a token lies within its last second or later. */
  lemma MarkOutlasts(exp: int, now: int)
    requires RemainingTtlSeconds(exp, now) > 0
    ensures exp - SECOND < now + RemainingTtlSeconds(exp, now) * SECOND <= exp
  {
  }

  lemma TokenMarked(w: World, token: Token, key: Key)
    requires Inv(w) && token in w.issued
    requires key == BlacklistedToken(token.jti) || key == UsedToken(token.jti)
    ensures Inv(w.(redis := Marked(w.redis, key, RemainingTtlSeconds(token.exp, w.now), w.now)))
  {
    var ttl := RemainingTtlSeconds(token.exp, w.now);
    if ttl > 0 {
      MarkOutlasts(token.exp, w.now);
      var w' := w.(redis := Marked(w.redis, key, ttl, w.now));
      forall jti | BlacklistedToken(jti) in w'.redis || UsedToken(jti) in w'.redis ensures HasJti(w'.issued, jti) {
        if jti == token.jti {
          assert token in w.issued && token.jti == jti;
        }
      }
    }
  }

  lemma StatePut(w: World, state: string, value: string)
    requires Inv(w) && StateValue(value)
    ensures Inv(PutState(w, state, value))
  {
  }

  lemma StateRemoved(w: World, state: string)
    requires Inv(w)
    ensures Inv(w.(redis := w.redis - {OAuthState(state)}))
  {
  }

  lemma RolesChanged(w: World, userRoles: set<(int, string)>)
    requires Inv(w) && forall p :: p in userRoles ==> p in w.userRoles || p.0 in w.users
    ensures Inv(w.(userRoles := userRoles))
  {
  }

  lemma LinkAdded(w: World, linkId: int, userId: int, provider: string, identity: Identity)
    requires Inv(w) && linkId !in w.links && userId in w.users
    requires LinkByIdentity(w.links, provider, identity.providerUserId).None?
    ensures Inv(AddLink(w, linkId, userId, provider, identity))
  {
    var w' := AddLink(w, linkId, userId, provider, identity);
    forall a, b | a in w'.links && b in w'.links && SameIdentity(w'.links[a], w'.links[b]) ensures a == b {
      assert a != linkId ==> w'.links[a] == w.links[a];
      assert b != linkId ==> w'.links[b] == w.links[b];
      assert forall l :: l in w.links ==> !IsIdentity(w.links[l], provider, identity.providerUserId);
    }
    forall id | id in w'.users && w'.users[id].hashedPassword.None? ensures HasLink(w'.links, id) {
      var l :| l in w.links && w.links[l].userId == id;
      assert w'.links[l].userId == id;
    }
  }

  lemma UserAdded(w: World, id: int, user: User)
    requires Inv(w) && id !in w.usedIds && UserByEmail(w.users, user.email).None? && user.hashedPassword.Some?
    ensures Inv(w.(users := w.users[id := user], usedIds := w.usedIds + {id}))
  {
  }

  /** A user created by an OAuth callback has no password but a link from the start. */
  lemma LinkedUserAdded(w: World, id: int, user: User, linkId: int, provider: string, identity: Identity)
    requires Inv(w) && id !in w.usedIds && linkId !in w.links && UserByEmail(w.users, user.email).None?
    requires LinkByIdentity(w.links, provider, identity.providerUserId).None?
    ensures Inv(AddLink(w.(users := w.users[id := user], usedIds := w.usedIds + {id}), linkId, id, provider, identity))
  {
    var withPassword := user.(hashedPassword := Some(Hash("")));
    var w1 := w.(users := w.users[id := withPassword], usedIds := w.usedIds + {id});
    UserAdded(w, id, withPassword);
    LinkAdded(w1, linkId, id, provider, identity);
    var w2 := AddLink(w1, linkId, id, provider, identity);
    var w3 := w2.(users := w2.users[id := user]);
    assert w3.users == w.users[id := user];
    assert w3.links[linkId].userId == id;
  }

  lemma {:induction false} AnotherElement(s: set<int>, x: int)
    requires x in s && |s| > 1
    ensures exists y :: y in s && y != x
  {
    var y := Pick(s - {x});
    assert y in s && y != x;
  }

  lemma LinkRemoved(w: World, picked: int, id: int)
    requires Inv(w) && id in w.users && picked in LinksOf(w.links, id)
    requires w.users[id].hashedPassword.None? ==> |LinksOf(w.links, id)| > 1
    ensures Inv(w.(links := w.links - {picked}))
  {
    var w' := w.(links := w.links - {picked});
    forall user | user in w'.users && w'.users[user].hashedPassword.None? ensures HasLink(w'.links, user) {
      if user == id {
        AnotherElement(LinksOf(w.links, id), picked);
        var l :| l in LinksOf(w.links, id) && l != picked;
        assert l in w'.links && w'.links[l].userId == user;
      } else {
        var l :| l in w.links && w.links[l].userId == user;
        assert l in w'.links && w'.links[l].userId == user;
      }
    }
  }

  lemma UsersDeleted(w: World, ids: set<int>)
    requires Inv(w)
    ensures Inv(DeleteUsers(w, ids))
  {
    var w' := DeleteUsers(w, ids);
    forall user | user in w'.users && w'.users[user].hashedPassword.None? ensures HasLink(w'.links, user) {
      var l :| l in w.links && w.links[l].userId == user;
      assert l in w'.links && w'.links[l].userId == user;
    }
  }

  lemma DeletingComposes(w: World, a: set<int>, b: set<int>)
    ensures DeleteUsers(DeleteUsers(w, a), b) == DeleteUsers(w, a + b)
  {
    var once, twice := DeleteUsers(w, a + b), DeleteUsers(DeleteUsers(w, a), b);
    assert once.users == twice.users;
    assert once.links == twice.links;
    assert once.userRoles == twice.userRoles;
  }

  lemma BothIssued(w: World, email: string, accessJti: string, refreshJti: string)
    requires Inv(w) && JtiFresh(w, accessJti) && JtiFresh(w, refreshJti) && accessJti != refreshJti
    ensures Inv(SignIn(w, email, accessJti, refreshJti).0)
  {
    var access := CreateToken(w, AccessToken, email, accessJti);
    var refresh := CreateToken(w, RefreshToken, email, refreshJti);
    TokenIssued(w, access);
    TokenIssued(w.(issued := w.issued + {access}), refresh);
    assert w.issued + {access, refresh} == w.issued + {access} + {refresh};
  }

  // ---------- what every handler keeps ----------

  lemma RegisterKeepsInv(w: World, email: string, password: string, id: int, jti: string)
    requires Inv(w) && Enabled(w, Register(email, password, id, jti))
    ensures Inv(RegisterUser(w, email, password, id, jti).0)
  {
    var (w', outcome) := RegisterUser(w, email, password, id, jti);
    if outcome.Registered? {
      var user := User(Lower(email), Some(Hash(password)), true, false, w.now);
      UserAdded(w, id, user);
      var w1 := w.(users := w.users[id := user], usedIds := w.usedIds + {id});
      RolesChanged(w1, w'.userRoles);
      TokenIssued(w1.(userRoles := w'.userRoles), outcome.verification);
    }
  }

  lemma LogoutKeepsInv(w: World, access: Token, refresh: Option<Token>)
    requires Inv(w)
    ensures Inv(Logout(w, access, refresh).0)
  {
    if Decodes(w, access, AccessToken) {
      TokenMarked(w, access, BlacklistedToken(access.jti));
      var w1 := BlacklistToken(w, access);
      if refresh.Some? && Decodes(w1, refresh.value, RefreshToken) {
        TokenMarked(w1, refresh.value, BlacklistedToken(refresh.value.jti));
      }
    }
  }

  lemma VerifyKeepsInv(w: World, token: Token)
    requires Inv(w)
    ensures Inv(VerifyEmail(w, token).0)
  {
    if VerifyEmail(w, token).1 == Done {
      var id := Decimal.ParseInt(token.subject).value;
      var user := w.users[id].(isVerified := true);
      UserChanged(w, id, user);
      TokenMarked(w.(users := w.users[id := user]), token, UsedToken(token.jti));
    }
  }

  lemma ResetKeepsInv(w: World, token: Token, password: string)
    requires Inv(w)
    ensures Inv(ResetPassword(w, token, password).0)
  {
    if ResetPassword(w, token, password).1 == Done {
      var id := Decimal.ParseInt(token.subject).value;
      var user := w.users[id].(hashedPassword := Some(Hash(password)));
      UserChanged(w, id, user);
      TokenMarked(w.(users := w.users[id := user]), token, UsedToken(token.jti));
    }
  }

  lemma UpdateEmailKeepsInv(w: World, access: Token, email: string)
    requires Inv(w)
    ensures Inv(UpdateUserEmail(w, access, email).0)
  {
    if UpdateUserEmail(w, access, email).1 == Done {
      var id := CurrentUser(w, access).value;
      UserChanged(w, id, w.users[id].(email := Lower(email)));
    }
  }

  lemma ChangePasswordKeepsInv(w: World, access: Token, currentPassword: string, newPassword: string)
    requires Inv(w)
    ensures Inv(ChangeUserPassword(w, access, currentPassword, newPassword).0)
  {
    if ChangeUserPassword(w, access, currentPassword, newPassword).1 == Done {
      var id := CurrentUser(w, access).value;
      UserChanged(w, id, w.users[id].(hashedPassword := Some(Hash(newPassword))));
    }
  }

  lemma StatusKeepsInv(w: World, access: Token, userId: int, isActive: Option<bool>, isVerified: Option<bool>)
    requires Inv(w)
    ensures Inv(UpdateUserStatus(w, access, userId, isActive, isVerified).0)
    ensures Inv(DeactivateUser(w, access, userId).0)
  {
    if userId in w.users {
      UserChanged(w, userId, w.users[userId].(isActive := false));
      var user := w.users[userId];
      var active := if isActive.Some? then isActive.value else user.isActive;
      var verified := if isVerified.Some? then isVerified.value else user.isVerified;
      UserChanged(w, userId, user.(isActive := active, isVerified := verified));
    }
  }

  lemma DeactivateSelfKeepsInv(w: World, access: Token)
    requires Inv(w)
    ensures Inv(DeactivateSelf(w, access).0)
  {
    if CurrentUser(w, access).Ok? {
      var id := CurrentUser(w, access).value;
      UserChanged(w, id, w.users[id].(isActive := false));
    }
  }

  lemma RoleStepsKeepInv(w: World, access: Token, userId: int, role: string)
    requires Inv(w)
    ensures Inv(AssignRole(w, access, userId, role).0)
    ensures Inv(RevokeRole(w, access, userId, role).0)
  {
    RolesChanged(w, w.userRoles - {(userId, role)});
    if userId in w.users {
      RolesChanged(w, w.userRoles + {(userId, role)});
    }
  }

  lemma CallbackKeepsInv(w: World, provider: string, state: string, identity: Option<Identity>, drawn: Drawn)
    requires Inv(w) && Enabled(w, Callback(provider, state, identity, drawn))
    ensures Inv(OAuthCallback(w, provider, state, identity, drawn).0)
  {
    StateRemoved(w, state);
    var consumed := w.(redis := w.redis - {OAuthState(state)});
    if ClientRefusal(w.settings, provider).None? && Live(w.redis, OAuthState(state), w.now) && identity.Some? {
      match LinkingUser(w.redis[OAuthState(state)].value)
      case Some(userId) => LinkingKeepsInv(consumed, userId, provider, identity.value, drawn);
      case None => CallbackLoginKeepsInv(consumed, provider, identity.value, drawn);
    }
  }

  lemma LinkingKeepsInv(w: World, userId: int, provider: string, identity: Identity, drawn: Drawn)
    requires Inv(w) && drawn.linkId !in w.links
    requires JtiFresh(w, drawn.accessJti) && JtiFresh(w, drawn.refreshJti) && drawn.accessJti != drawn.refreshJti
    ensures Inv(CompleteLinking(w, userId, provider, identity, drawn).0)
  {
    var existing := LinkByIdentity(w.links, provider, identity.providerUserId);
    if userId in w.users && (existing.Some? ==> w.links[existing.value].userId == userId) {
      var w' := if existing.None? then AddLink(w, drawn.linkId, userId, provider, identity) else w;
      if existing.None? {
        LinkAdded(w, drawn.linkId, userId, provider, identity);
      }
      BothIssued(w', w.users[userId].email, drawn.accessJti, drawn.refreshJti);
    }
  }

  lemma CallbackLoginKeepsInv(w: World, provider: string, identity: Identity, drawn: Drawn)
    requires Inv(w) && drawn.linkId !in w.links && drawn.userId !in w.usedIds
    requires JtiFresh(w, drawn.accessJti) && JtiFresh(w, drawn.refreshJti) && drawn.accessJti != drawn.refreshJti
    ensures Inv(CompleteLogin(w, provider, identity, drawn).0)
  {
    match LinkByIdentity(w.links, provider, identity.providerUserId)
    case Some(l) =>
      var userId := w.links[l].userId;
      if userId in w.users && w.users[userId].isActive {
        BothIssued(w, w.users[userId].email, drawn.accessJti, drawn.refreshJti);
      }
    case None =>
      if identity.email.Some? {
        match UserByEmail(w.users, identity.email.value)
        case Some(id) =>
          LinkAdded(w, drawn.linkId, id, provider, identity);
          if w.users[id].isActive {
            BothIssued(AddLink(w, drawn.linkId, id, provider, identity), w.users[id].email, drawn.accessJti,
                       drawn.refreshJti);
          }
        case None =>
          var user := User(identity.email.value, None, true, true, w.now);
          LinkedUserAdded(w, drawn.userId, user, drawn.linkId, provider, identity);
          var w' := w.(users := w.users[drawn.userId := user], usedIds := w.usedIds + {drawn.userId});
          BothIssued(AddLink(w', drawn.linkId, drawn.userId, provider, identity), user.email, drawn.accessJti,
                     drawn.refreshJti);
      }
  }

  lemma UnlinkKeepsInv(w: World, access: Token, provider: string, picked: int)
    requires Inv(w) && Enabled(w, Unlink(access, provider, picked))
    ensures Inv(UnlinkProvider(w, access, provider, picked).0)
  {
    if UnlinkProvider(w, access, provider, picked).1 == Done {
      LinkRemoved(w, picked, CurrentUser(w, access).value);
    }
  }

  lemma SignInStepsKeepInv(w: World, step: Step)
    requires Inv(w) && Enabled(w, step) && (step.Login? || step.Refresh? || step.Forgot?)
    ensures Inv(Next(w, step))
  {
    match Apply(w, step).1
    case SignedIn(access, _) => BothIssued(w, access.subject, step.accessJti, step.refreshJti);
    case Refreshed(token) => TokenIssued(w, token);
    case Mailed(reset) =>
      if reset.Some? {
        TokenIssued(w, reset.value);
      }
    case _ =>
  }

  lemma ProfileStepsKeepInv(w: World, step: Step)
    requires Inv(w) && (step.UpdateEmail? || step.ChangePassword? || step.Deactivate?)
    ensures Inv(Next(w, step))
  {
    match step
    case UpdateEmail(access, email) => UpdateEmailKeepsInv(w, access, email);
    case ChangePassword(access, currentPassword, newPassword) =>
      ChangePasswordKeepsInv(w, access, currentPassword, newPassword);
    case Deactivate(access) => DeactivateSelfKeepsInv(w, access);
  }

  lemma AdminStepsKeepInv(w: World, step: Step)
    requires Inv(w) && (step.AdminUpdate? || step.AdminDeactivate? || step.AdminAssign? || step.AdminRevoke?)
    ensures Inv(Next(w, step))
  {
    if step.AdminUpdate? {
      StatusKeepsInv(w, step.access, step.userId, step.isActive, step.isVerified);
    } else if step.AdminDeactivate? {
      StatusKeepsInv(w, step.access, step.userId, None, None);
    } else {
      RoleStepsKeepInv(w, step.access, step.userId, step.role);
    }
  }

  lemma OAuthStepsKeepInv(w: World, step: Step)
    requires Inv(w) && Enabled(w, step) && (step.StartLogin? || step.StartLink? || step.Unlink?)
    ensures Inv(Next(w, step))
  {
    match step
    case StartLogin(provider, state) => StatePut(w, state, LOGIN_STATE);
    case StartLink(access, provider, state) =>
      if CurrentUser(w, access).Ok? {
        StatePut(w, state, LinkState(CurrentUser(w, access).value));
      }
    case Unlink(access, provider, picked) => UnlinkKeepsInv(w, access, provider, picked);
  }

  /** The one-step theorem: every handler keeps all of it. */
  lemma StepKeepsInv(w: World, step: Step)
    requires Inv(w) && Enabled(w, step)
    ensures Inv(Next(w, step))
  {
    match step
    case Tick(_) =>
    case Register(email, password, id, jti) => RegisterKeepsInv(w, email, password, id, jti);
    case LogOut(access, alsoRefresh) => LogoutKeepsInv(w, access, alsoRefresh);
    case Verification(token) => VerifyKeepsInv(w, token);
    case Reset(token, password) => ResetKeepsInv(w, token, password);
    case Login(_, _, _, _) => SignInStepsKeepInv(w, step);
    case Refresh(_, _) => SignInStepsKeepInv(w, step);
    case Forgot(_, _) => SignInStepsKeepInv(w, step);
    case StartLogin(_, _) => OAuthStepsKeepInv(w, step);
    case StartLink(_, _, _) => OAuthStepsKeepInv(w, step);
    case Callback(provider, state, identity, drawn) => CallbackKeepsInv(w, provider, state, identity, drawn);
    case Unlink(_, _, _) => OAuthStepsKeepInv(w, step);
    case AdminUpdate(_, _, _, _) => AdminStepsKeepInv(w, step);
    case AdminDeactivate(_, _) => AdminStepsKeepInv(w, step);
    case AdminAssign(_, _, _) => AdminStepsKeepInv(w, step);
    case AdminRevoke(_, _, _) => AdminStepsKeepInv(w, step);
    case Cleanup => UsersDeleted(w, Stale(w.users, w.now - UNVERIFIED_USER_MAX_AGE));
    case DatabaseGrant(userId, role) => RolesChanged(w, w.userRoles + {(userId, role)});
    case _ => ProfileStepsKeepInv(w, step);
  }

  /** Every reachable state satisfies the invariants. */
  lemma {:induction false} RunKeepsInv(worlds: seq<World>, steps: seq<Step>, i: nat)
    requires IsRun(worlds, steps) && i < |worlds|
    ensures Inv(worlds[i])
  {
    if i > 0 {
      RunKeepsInv(worlds, steps, i - 1);
      StepKeepsInv(worlds[i - 1], steps[i - 1]);
    }
  }
}
