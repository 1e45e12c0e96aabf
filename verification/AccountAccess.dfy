// Who may act: deactivated users, changed emails, and the permissions behind administrative changes.
module AccountAccess {
  import opened Wrappers
  import opened Accounts
  import opened AccountInvariants
  import opened AccountRuns
  import opened AccountHistory
  import Decimal
  import Rbac

  // ---------- deactivation ----------

  ghost predicate Inactive(w: World, userId: int) {
    userId in w.users ==> !w.users[userId].isActive
  }

  /** The only step that lets a deactivated user back in. */
  ghost predicate Reactivates(w: World, step: Step, userId: int) {
    step.AdminUpdate? && step.userId == userId && step.isActive == Some(true) && Apply(w, step).1 == Done
  }

  lemma CallbackKeepsUsers(w: World, provider: string, state: string, identity: Option<Identity>, drawn: Drawn)
    ensures
      var w' := OAuthCallback(w, provider, state, identity, drawn).0;
      w'.users == w.users || (w'.users.Keys == w.users.Keys + {drawn.userId}
                              && forall id :: id in w.users && id != drawn.userId ==> w'.users[id] == w.users[id])
  {
  }

  lemma OtherStepsKeepStatus(w: World, step: Step, userId: int)
    requires !step.Callback? && !step.Register? && userId in Next(w, step).users
    requires !step.Verification? && !step.Deactivate? && !step.AdminUpdate? && !step.AdminDeactivate?
    ensures userId in w.users
    ensures Next(w, step).users[userId].isActive == w.users[userId].isActive
    ensures Next(w, step).users[userId].isVerified == w.users[userId].isVerified
  {
  }

  /**
   * A user's status changes only by a verification token issued for that user, by the user, or by a permitted
   * administrator.
   */
  lemma StatusChangesAreAuthorized(w: World, step: Step, userId: int)
    requires Inv(w) && Enabled(w, step) && userId in w.users && userId in Next(w, step).users
    requires var user := Next(w, step).users[userId];
             user.isActive != w.users[userId].isActive || user.isVerified != w.users[userId].isVerified
    ensures
      || (step.Verification? && Decodes(w, step.token, EmailVerification)
          && Decimal.ParseInt(step.token.subject) == Some(userId))
      || (step.Deactivate? && Accounts.CurrentUser(w, step.access) == Ok(userId))
      || (step.AdminUpdate? && step.userId == userId && Permitted(w, step.access, {"users:write"}).Ok?)
      || (step.AdminDeactivate? && step.userId == userId && Permitted(w, step.access, {"users:delete"}).Ok?)
  {
    if step.Callback? {
      CallbackKeepsUsers(w, step.provider, step.state, step.identity, step.drawn);
    } else if step.Register? {
    } else if !step.Verification? && !step.Deactivate? && !step.AdminUpdate? && !step.AdminDeactivate? {
      OtherStepsKeepStatus(w, step, userId);
    }
  }

  lemma InactiveStep(w: World, step: Step, userId: int)
    requires Inv(w) && Enabled(w, step) && userId in w.usedIds && Inactive(w, userId) && !Reactivates(w, step, userId)
    ensures Inactive(Next(w, step), userId)
  {
    if step.Callback? {
      CallbackKeepsUsers(w, step.provider, step.state, step.identity, step.drawn);
    } else if step.Register? {
    } else if !step.Verification? && !step.Deactivate? && !step.AdminUpdate? && !step.AdminDeactivate? {
      if userId in Next(w, step).users {
        OtherStepsKeepStatus(w, step, userId);
      }
    }
  }

  ghost predicate NeverReactivated(worlds: seq<World>, steps: seq<Step>, userId: int, i: nat, j: nat)
    requires |worlds| == |steps| + 1 && j <= |steps|
  {
    forall k {:trigger steps[k]} :: i <= k < j ==> !Reactivates(worlds[k], steps[k], userId)
  }

  lemma InactiveAt(worlds: seq<World>, steps: seq<Step>, userId: int, i: nat, k: nat, j: nat)
    requires IsRun(worlds, steps) && i <= k < j < |worlds| && NeverReactivated(worlds, steps, userId, i, j)
    requires userId in worlds[k].usedIds && Inactive(worlds[k], userId)
    ensures userId in worlds[k + 1].usedIds && Inactive(worlds[k + 1], userId)
  {
    RunKeepsInv(worlds, steps, k);
    StepGrows(worlds[k], steps[k]);
    InactiveStep(worlds[k], steps[k], userId);
  }

  lemma {:induction false} InactiveLater(worlds: seq<World>, steps: seq<Step>, userId: int, i: nat, k: nat, j: nat)
    requires IsRun(worlds, steps) && i <= k <= j < |worlds| && NeverReactivated(worlds, steps, userId, i, j)
    requires userId in worlds[i].usedIds && Inactive(worlds[i], userId)
    ensures userId in worlds[k].usedIds && Inactive(worlds[k], userId)
    decreases k
  {
    if i < k {
      InactiveLater(worlds, steps, userId, i, k - 1, j);
      InactiveAt(worlds, steps, userId, i, k - 1, j);
    }
  }

  /**
   * A deactivated user is locked out until an administrator reactivates the account: no access token acts for the
   * user, login and refresh hand out nothing, no reset token is mailed, and none that was mailed works, in any later
   * state.
   */
  lemma DeactivatedIsLockedOut(worlds: seq<World>, steps: seq<Step>, userId: int, i: nat, j: nat, access: Token)
    requires IsRun(worlds, steps) && i <= j < |worlds| && NeverReactivated(worlds, steps, userId, i, j)
    requires userId in worlds[i].users && !worlds[i].users[userId].isActive
    ensures Accounts.CurrentUser(worlds[j], access) != Ok(userId)
    ensures userId in worlds[j].users ==> Unusable(worlds[j], worlds[j].users[userId].email)
    ensures forall token: Token, password ::
              token.subject == Decimal.IntText(userId) ==> ResetPassword(worlds[j], token, password).1.Refused?
  {
    RunKeepsInv(worlds, steps, i);
    InactiveLater(worlds, steps, userId, i, j, j);
    RunKeepsInv(worlds, steps, j);
    if userId in worlds[j].users {
      InactiveIsUnusable(worlds[j], userId);
    }
    Decimal.ParseIntText(userId);
  }

  /** Login and refresh hand out no token for this email, and no reset token is mailed to it. */
  ghost predicate Unusable(w: World, email: string) {
    && (forall given, password, a, r :: Lower(given) == email ==> LoginUser(w, given, password, a, r).1.Refused?)
    && (forall refresh: Token, jti :: refresh.subject == email ==> RefreshAccessToken(w, refresh, jti).1.Refused?)
    && (forall given, jti :: Lower(given) == email ==> ForgotPassword(w, given, jti) == (w, Mailed(None)))
  }

  lemma InactiveIsUnusable(w: World, userId: int)
    requires UsersInv(w) && userId in w.users && !w.users[userId].isActive
    ensures Unusable(w, w.users[userId].email)
  {
    var email := w.users[userId].email;
    assert UserByEmail(w.users, email) == Some(userId);
    forall given, password, a, r | Lower(given) == email ensures LoginUser(w, given, password, a, r).1.Refused? {
    }
    forall refresh: Token, jti | refresh.subject == email ensures RefreshAccessToken(w, refresh, jti).1.Refused? {
    }
  }

  // ---------- who gets tokens ----------

  ghost predicate ActiveEmail(w: World, email: string) {
    exists id :: id in w.users && w.users[id].email == email && w.users[id].isActive
  }

  /** Sign-in callbacks give tokens to active users only. */
  lemma SignInCallbackNeedsActive(w: World, provider: string, identity: Identity, drawn: Drawn)
    requires CompleteLogin(w, provider, identity, drawn).1.SignedIn?
    ensures ActiveEmail(CompleteLogin(w, provider, identity, drawn).0,
                        CompleteLogin(w, provider, identity, drawn).1.access.subject)
  {
    var w' := CompleteLogin(w, provider, identity, drawn).0;
    match LinkByIdentity(w.links, provider, identity.providerUserId)
    case Some(l) =>
      assert w.links[l].userId in w'.users;
    case None =>
      match UserByEmail(w.users, identity.email.value)
      case Some(id) => assert id in w'.users;
      case None => assert drawn.userId in w'.users;
  }

  /**
   * A linking callback gives tokens exactly when the user still exists and the identity is not somebody else's;
   * whether the user is active is not asked there.
   */
  lemma LinkingSignsInIff(w: World, userId: int, provider: string, identity: Identity, drawn: Drawn)
    requires IdentitiesUnique(w.links)
    ensures CompleteLinking(w, userId, provider, identity, drawn).1.SignedIn?
      <==> userId in w.users
           && forall l :: l in w.links && IsIdentity(w.links[l], provider, identity.providerUserId) ==>
                w.links[l].userId == userId
  {
    var existing := LinkByIdentity(w.links, provider, identity.providerUserId);
    if existing.Some? {
      forall l | l in w.links && IsIdentity(w.links[l], provider, identity.providerUserId) ensures l == existing.value {
        assert SameIdentity(w.links[l], w.links[existing.value]);
      }
    }
  }

  /**
   * So a deactivated user can still be given tokens: by a linking that was started before the deactivation. Until the
   * account is reactivated no route accepts them.
   */
  lemma InactiveUserGetsTokens(w: World, access: Token, provider: string, state: string, identity: Identity,
                               drawn: Drawn)
    requires Inv(w) && CurrentUser(w, access).Ok? && ClientRefusal(w.settings, provider).None?
    requires LinkByIdentity(w.links, provider, identity.providerUserId).None?
    ensures
      var id := CurrentUser(w, access).value;
      var started := OAuthLink(w, access, provider, state).0;
      var deactivated := DeactivateSelf(started, access).0;
      var (w', outcome) := OAuthCallback(deactivated, provider, state, Some(identity), drawn);
      && outcome.SignedIn? && outcome.access.subject == outcome.refresh.subject == access.subject
      && id in w'.users && !w'.users[id].isActive && outcome.access in w'.issued && outcome.refresh in w'.issued
  {
    var id := CurrentUser(w, access).value;
    LinkStateRoundTrip(id);
    var started := OAuthLink(w, access, provider, state).0;
    assert CurrentUser(started, access) == Ok(id);
    var deactivated := DeactivateSelf(started, access).0;
    assert Live(deactivated.redis, OAuthState(state), deactivated.now);
    assert LinkingUser(deactivated.redis[OAuthState(state)].value) == Some(id);
  }

  // ---------- roles ----------

  /** Assigning a role lets its holder through that role's check at once, and revoking it shuts the check again. */
  lemma RoleChangesTakeEffect(w: World, manager: Token, access: Token, userId: int, role: string)
    requires CurrentUser(w, access) == Ok(userId)
    ensures AssignRole(w, manager, userId, role).1 == Done ==>
              InRoles(AssignRole(w, manager, userId, role).0, access, {role}) == Ok(userId)
    ensures RevokeRole(w, manager, userId, role).1 == Done ==>
              InRoles(RevokeRole(w, manager, userId, role).0, access, {role}) == Err(MissingRole)
  {
    if AssignRole(w, manager, userId, role).1 == Done {
      var held := RolesOf(w.userRoles + {(userId, role)}, userId);
      assert (userId, role) in w.userRoles + {(userId, role)};
      assert role in held && role in held * {role};
    }
    if RevokeRole(w, manager, userId, role).1 == Done {
      var held := RolesOf(w.userRoles - {(userId, role)}, userId);
      assert held * {role} == {};
    }
  }

  // ---------- where the power to grant roles comes from ----------

  const MANAGE: string := "roles:manage"

  predicate Manages(roles: map<string, Rbac.Role>, role: string) {
    role in roles && MANAGE in roles[role].permissions
  }

  ghost predicate NoManagers(w: World) {
    forall p :: p in w.userRoles ==> !Manages(w.roles, p.1)
  }

  lemma CallbackKeepsRoleTable(w: World, provider: string, state: string, identity: Option<Identity>, drawn: Drawn)
    ensures OAuthCallback(w, provider, state, identity, drawn).0.roles == w.roles
  {
  }

  lemma RoleTableUnchanged(w: World, step: Step)
    ensures Next(w, step).roles == w.roles
  {
    if step.Callback? {
      CallbackKeepsRoleTable(w, step.provider, step.state, step.identity, step.drawn);
    }
  }

  lemma NoManagerIsPermitted(w: World, access: Token)
    requires NoManagers(w)
    ensures Permitted(w, access, {MANAGE}).Err?
  {
    if CurrentUser(w, access).Ok? {
      var held := RolesOf(w.userRoles, CurrentUser(w, access).value);
      assert MANAGE in {MANAGE};
      assert MANAGE !in Rbac.UserPermissions(w.roles, held);
    }
  }

  lemma NoManagersStep(w: World, step: Step)
    requires NoManagers(w) && !Manages(w.roles, Rbac.DEFAULT_USER_ROLE_NAME)
    requires step.DatabaseGrant? ==> !Manages(w.roles, step.role)
    ensures NoManagers(Next(w, step)) && Next(w, step).roles == w.roles
  {
    RoleTableUnchanged(w, step);
    forall p | p in Next(w, step).userRoles ensures !Manages(w.roles, p.1) {
      if p !in w.userRoles {
        RolesComeFromManagers(w, step, p.0, p.1);
        if step.AdminAssign? {
          NoManagerIsPermitted(w, step.access);
        }
      }
    }
  }

  /** In the first `i` steps the operator gave nobody a role that can grant roles. */
  ghost predicate OperatorMadeNoManager(worlds: seq<World>, steps: seq<Step>, i: nat)
    requires |worlds| == |steps| + 1 && i <= |steps|
  {
    forall k {:trigger steps[k]} :: 0 <= k < i && steps[k].DatabaseGrant? ==> !Manages(worlds[0].roles, steps[k].role)
  }

  /**
   * No sequence of requests makes a first administrator: as long as the default role and the operator's grants carry
   * no `roles:manage`, nobody ever holds a role that does, and every request to assign or revoke a role is refused.
   */
  lemma {:induction false} ManagersComeFromTheOperator(worlds: seq<World>, steps: seq<Step>, i: nat, access: Token,
                                                       userId: int, role: string)
    requires IsRun(worlds, steps) && i < |worlds|
    requires !Manages(worlds[0].roles, Rbac.DEFAULT_USER_ROLE_NAME) && OperatorMadeNoManager(worlds, steps, i)
    ensures NoManagers(worlds[i]) && worlds[i].roles == worlds[0].roles
    ensures AssignRole(worlds[i], access, userId, role).1.Refused?
    ensures RevokeRole(worlds[i], access, userId, role).1.Refused?
  {
    if i > 0 {
      ManagersComeFromTheOperator(worlds, steps, i - 1, access, userId, role);
      assert worlds[i - 1 + 1] == Next(worlds[i - 1], steps[i - 1]);
      NoManagersStep(worlds[i - 1], steps[i - 1]);
    }
    NoManagerIsPermitted(worlds[i], access);
  }

  /** The roles that seeding sets up meet that condition, and make `admin` the only role that can grant roles. */
  lemma OnlyAdminManages(role: string)
    ensures Manages(Rbac.Seeded(Rbac.DEFAULTS, Rbac.EMPTY).roles, role) <==> role == "admin"
  {
    var roles := Rbac.Seeded(Rbac.DEFAULTS, Rbac.EMPTY).roles;
    assert role in roles <==> role in Rbac.DEFAULTS.roles;
    assert role in roles ==> roles[role].permissions == Rbac.DEFAULTS.Wanted(role);
  }

  /** Once seeded, a user with the role `admin` is permitted everything the administrative routes ask for. */
  lemma AdminsArePermitted(w: World, db: Rbac.Database, access: Token, required: set<string>)
    requires w.roles == Rbac.Seeded(Rbac.DEFAULTS, db).roles && required <= Rbac.DEFAULTS.permissions.Keys
    requires CurrentUser(w, access).Ok? && (CurrentUser(w, access).value, "admin") in w.userRoles
    ensures Permitted(w, access, required) == CurrentUser(w, access)
  {
    var held := RolesOf(w.userRoles, CurrentUser(w, access).value);
    Rbac.SeedingEstablishesDefaults(Rbac.DEFAULTS, db, "admin");
    assert "admin" in held;
    forall permission | permission in required ensures permission in Rbac.UserPermissions(w.roles, held) {
      assert permission in Rbac.DEFAULTS.Wanted("admin");
    }
  }

  // ---------- changed emails ----------

  /** Once a user has changed the email, tokens naming the old one act for nobody, and it cannot be used to log in. */
  lemma EmailChangeRetiresOldEmail(w: World, access: Token, newEmail: string, stale: Token, given: string,
                                   password: string, accessJti: string, refreshJti: string)
    requires Inv(w) && UpdateUserEmail(w, access, newEmail).1 == Done
    requires
      var before := w.users[Accounts.CurrentUser(w, access).value].email;
      before != Lower(newEmail) && stale.subject == before && Lower(given) == before
    ensures
      var w' := UpdateUserEmail(w, access, newEmail).0;
      && Accounts.CurrentUser(w', stale).Err?
      && LoginUser(w', given, password, accessJti, refreshJti).1 == Refused(InvalidCredentials)
  {
    var id := Accounts.CurrentUser(w, access).value;
    var before := w.users[id].email;
    var w' := UpdateUserEmail(w, access, newEmail).0;
    forall other | other in w'.users ensures w'.users[other].email != before {
      if other != id {
        assert w.users[other].email != before;
      }
    }
  }
}
