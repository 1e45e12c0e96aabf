// When each request succeeds, exactly, said of the tables themselves; refused requests change nothing.
module AccountOutcomes {
  import opened Wrappers
  import opened Accounts
  import opened AccountInvariants
  import opened AccountRuns
  import opened AccountTokens
  import Rbac

  // ---------- permissions ----------

  /** Some role the user holds carries the permission. */
  ghost predicate Granted(w: World, userId: int, permission: string) {
    exists role :: (userId, role) in w.userRoles && role in w.roles && permission in w.roles[role].permissions
  }

  /** A caller is let through if and only if the token acts for a user whose roles carry every required permission. */
  lemma PermittedIff(w: World, access: Token, required: set<string>, userId: int)
    ensures Permitted(w, access, required) == Ok(userId)
      <==> CurrentUser(w, access) == Ok(userId)
           && forall permission :: permission in required ==> Granted(w, userId, permission)
  {
    var held := Rbac.UserPermissions(w.roles, RolesOf(w.userRoles, userId));
    forall permission ensures permission in held <==> Granted(w, userId, permission) {
      GrantedIff(w, userId, permission);
    }
  }

  lemma GrantedIff(w: World, userId: int, permission: string)
    ensures permission in Rbac.UserPermissions(w.roles, RolesOf(w.userRoles, userId))
      <==> Granted(w, userId, permission)
  {
    forall role ensures role in RolesOf(w.userRoles, userId) <==> (userId, role) in w.userRoles {
      HeldIff(w, userId, role);
    }
    if Granted(w, userId, permission) {
      var role :| (userId, role) in w.userRoles && role in w.roles && permission in w.roles[role].permissions;
      assert role in RolesOf(w.userRoles, userId);
    }
  }

  lemma HeldIff(w: World, userId: int, role: string)
    ensures role in RolesOf(w.userRoles, userId) <==> (userId, role) in w.userRoles
  {
    if (userId, role) in w.userRoles {
      assert (userId, role).1 in RolesOf(w.userRoles, userId);
    }
  }

  /** A role check lets a caller through if and only if the user holds one of the roles. */
  lemma InRolesIff(w: World, access: Token, allowed: set<string>, userId: int)
    ensures InRoles(w, access, allowed) == Ok(userId)
      <==> CurrentUser(w, access) == Ok(userId) && exists role :: role in allowed && (userId, role) in w.userRoles
  {
    var held := RolesOf(w.userRoles, userId);
    forall role ensures role in held <==> (userId, role) in w.userRoles {
      HeldIff(w, userId, role);
    }
    if exists role :: role in allowed && (userId, role) in w.userRoles {
      var role :| role in allowed && (userId, role) in w.userRoles;
      assert role in held * allowed;
    } else {
      assert held * allowed == {};
    }
  }

  // ---------- emails as given ----------

  predicate IsCapital(c: char) {
    'A' <= c <= 'Z'
  }

  predicate SameLetter(a: char, b: char) {
    || a == b
    || (IsCapital(a) && b as int == a as int + 32)
    || (IsCapital(b) && a as int == b as int + 32)
  }

  predicate SameButForCase(a: string, b: string) {
    |a| == |b| && forall i :: 0 <= i < |a| ==> SameLetter(a[i], b[i])
  }

  /** Lower case has no capitals, and forgets exactly the case of letters. */
  lemma LowerMeansNoCase(a: string, b: string)
    ensures Lower(a) == Lower(b) <==> SameButForCase(a, b)
    ensures SameButForCase(a, Lower(a)) && forall i :: 0 <= i < |Lower(a)| ==> !IsCapital(Lower(a)[i])
  {
    if Lower(a) == Lower(b) {
      forall i | 0 <= i < |a| ensures SameLetter(a[i], b[i]) {
        assert Lower(a)[i] == Lower(b)[i];
      }
    }
    if SameButForCase(a, b) {
      forall i | 0 <= i < |a| ensures Lower(a)[i] == Lower(b)[i] {
        assert SameLetter(a[i], b[i]);
      }
      assert Lower(a) == Lower(b);
    }
  }

  /** Registration, login and the request for a reset do not care about the case in which an email is given. */
  lemma CaseDoesNotMatter(w: World, a: string, b: string, password: string, id: int, jti: string, refreshJti: string)
    requires SameButForCase(a, b)
    ensures RegisterUser(w, a, password, id, jti) == RegisterUser(w, b, password, id, jti)
    ensures LoginUser(w, a, password, jti, refreshJti) == LoginUser(w, b, password, jti, refreshJti)
    ensures ForgotPassword(w, a, jti) == ForgotPassword(w, b, jti)
  {
    LowerMeansNoCase(a, b);
  }

  // ---------- accounts ----------

  /** Registration succeeds if and only if nobody has the email in lower case. */
  lemma RegisterSucceedsIff(w: World, email: string, password: string, id: int, jti: string)
    ensures RegisterUser(w, email, password, id, jti).1.Registered? <==> EmailFree(w, Lower(email))
    ensures RegisterUser(w, email, password, id, jti).1 == Refused(EmailTaken) <==> !EmailFree(w, Lower(email))
  {
  }

  /** An email change succeeds if and only if no other user has the email in lower case. */
  lemma UpdateEmailSucceedsIff(w: World, access: Token, email: string)
    ensures UpdateUserEmail(w, access, email).1 == Done
      <==> CurrentUser(w, access).Ok?
           && forall other :: other in w.users && w.users[other].email == Lower(email) ==>
                other == CurrentUser(w, access).value
  {
  }

  /** A password change succeeds if and only if the current password is right and the new one is another. */
  lemma ChangePasswordSucceedsIff(w: World, access: Token, currentPassword: string, newPassword: string)
    ensures ChangeUserPassword(w, access, currentPassword, newPassword).1 == Done
      <==> CurrentUser(w, access).Ok?
           && w.users[CurrentUser(w, access).value].hashedPassword == Some(Hash(currentPassword))
           && newPassword != currentPassword
    ensures CurrentUser(w, access).Ok?
            && w.users[CurrentUser(w, access).value].hashedPassword.Some?
            && w.users[CurrentUser(w, access).value].hashedPassword != Some(Hash(currentPassword)) ==>
              ChangeUserPassword(w, access, currentPassword, newPassword) == (w, Refused(WrongPassword))
  {
  }

  /** Each administrative request succeeds if and only if its permission is granted and its user and role exist. */
  lemma AdminSucceedsIff(w: World, access: Token, id: int, isActive: Option<bool>, isVerified: Option<bool>,
                         role: string)
    ensures UpdateUserStatus(w, access, id, isActive, isVerified).1 == Done
      <==> id in w.users && CallerMay(w, access, "users:write")
    ensures DeactivateUser(w, access, id).1 == Done <==> id in w.users && CallerMay(w, access, "users:delete")
    ensures AssignRole(w, access, id, role).1 == Done
      <==> id in w.users && role in w.roles && CallerMay(w, access, "roles:manage")
    ensures RevokeRole(w, access, id, role).1 == Done <==> id in w.users && CallerMay(w, access, "roles:manage")
  {
    CallerMayIff(w, access, "users:write");
    CallerMayIff(w, access, "users:delete");
    CallerMayIff(w, access, "roles:manage");
  }

  ghost predicate CallerMay(w: World, access: Token, permission: string) {
    CurrentUser(w, access).Ok? && Granted(w, CurrentUser(w, access).value, permission)
  }

  lemma CallerMayIff(w: World, access: Token, permission: string)
    ensures Permitted(w, access, {permission}).Ok? <==> CallerMay(w, access, permission)
  {
    if CurrentUser(w, access).Ok? {
      PermittedIff(w, access, {permission}, CurrentUser(w, access).value);
      assert Permitted(w, access, {permission}).Ok? ==>
          Permitted(w, access, {permission}) == Ok(CurrentUser(w, access).value);
    }
  }

  // ---------- sign-in with a provider ----------

  /** Starting a sign-in succeeds if and only if the provider is one of the three and has credentials. */
  lemma StartSucceedsIff(w: World, access: Token, provider: string, state: string)
    ensures OAuthLogin(w, provider, state).1 == Done <==> Usable(w, provider)
    ensures OAuthLink(w, access, provider, state).1 == Done <==> Usable(w, provider) && CurrentUser(w, access).Ok?
  {
  }

  predicate Usable(w: World, provider: string) {
    (provider == "google" || provider == "github" || provider == "microsoft") && provider in w.settings.configured
  }

  ghost predicate LinkedTo(w: World, provider: string, providerUserId: string, userId: int) {
    exists l :: l in w.links && w.links[l].provider == provider && w.links[l].providerUserId == providerUserId
                && w.links[l].userId == userId
  }

  ghost predicate LinkedToActive(w: World, provider: string, providerUserId: string) {
    exists userId :: userId in w.users && w.users[userId].isActive && LinkedTo(w, provider, providerUserId, userId)
  }

  ghost predicate NobodyLinked(w: World, provider: string, providerUserId: string) {
    forall l :: l in w.links ==> w.links[l].provider != provider || w.links[l].providerUserId != providerUserId
  }

  /**
   * A sign-in callback gives tokens if and only if the identity is linked to an active user, or is linked to nobody and
   * comes with an email that no inactive user has.
   */
  lemma SignInCallbackIff(w: World, provider: string, identity: Identity, drawn: Drawn)
    requires Inv(w)
    ensures CompleteLogin(w, provider, identity, drawn).1.SignedIn?
      <==> LinkedToActive(w, provider, identity.providerUserId)
           || (NobodyLinked(w, provider, identity.providerUserId) && identity.email.Some?
               && forall id :: id in w.users && w.users[id].email == identity.email.value ==> w.users[id].isActive)
  {
    var found := LinkByIdentity(w.links, provider, identity.providerUserId);
    if found.Some? {
      var owner := w.links[found.value].userId;
      assert !NobodyLinked(w, provider, identity.providerUserId);
      assert LinkedTo(w, provider, identity.providerUserId, owner);
      OneOwner(w, provider, identity.providerUserId, found.value);
    } else {
      assert !LinkedToActive(w, provider, identity.providerUserId);
    }
  }

  lemma OneOwner(w: World, provider: string, providerUserId: string, l: int)
    requires IdentitiesUnique(w.links) && l in w.links && IsIdentity(w.links[l], provider, providerUserId)
    ensures forall userId :: LinkedTo(w, provider, providerUserId, userId) ==> userId == w.links[l].userId
  {
    forall userId | LinkedTo(w, provider, providerUserId, userId) ensures userId == w.links[l].userId {
      var m :| m in w.links && w.links[m].provider == provider && w.links[m].providerUserId == providerUserId
               && w.links[m].userId == userId;
      assert SameIdentity(w.links[m], w.links[l]);
    }
  }

  /**
   * How a callback fails before it knows the user: the provider, then the state, then the exchange with the provider.
   */
  lemma CallbackStages(w: World, provider: string, state: string, identity: Option<Identity>, drawn: Drawn)
    ensures
      var outcome := OAuthCallback(w, provider, state, identity, drawn).1;
      var live := OAuthState(state) in w.redis && w.now < w.redis[OAuthState(state)].deadline;
      && (outcome == Refused(UnknownProvider) || outcome == Refused(ProviderNotConfigured) <==> !Usable(w, provider))
      && (outcome == Refused(InvalidOAuthState) <==> Usable(w, provider) && !live)
      && (outcome == Refused(ProviderFailed) <==> Usable(w, provider) && live && identity == None)
  {
  }

  /** Unlinking succeeds if and only if the caller has such a link and keeps a password or another link. */
  lemma UnlinkSucceedsIff(w: World, access: Token, provider: string, picked: int)
    requires Inv(w) && Enabled(w, Unlink(access, provider, picked))
    ensures UnlinkProvider(w, access, provider, picked).1 == Done
      <==> CurrentUser(w, access).Ok?
           && var id := CurrentUser(w, access).value;
              HasProviderLink(w, id, provider) && (w.users[id].hashedPassword.Some? || HasAnotherLink(w, id, picked))
  {
    if CurrentUser(w, access).Ok? {
      var id := CurrentUser(w, access).value;
      if HasProviderLink(w, id, provider) {
        var l :| l in w.links && w.links[l].userId == id && w.links[l].provider == provider;
        assert l in ProviderLinks(w.links, id, provider);
        assert picked in LinksOf(w.links, id);
        MoreThanOne(LinksOf(w.links, id), picked);
      } else {
        assert ProviderLinks(w.links, id, provider) == {};
      }
    }
  }

  ghost predicate HasProviderLink(w: World, id: int, provider: string) {
    exists l :: l in w.links && w.links[l].userId == id && w.links[l].provider == provider
  }

  ghost predicate HasAnotherLink(w: World, id: int, picked: int) {
    exists l :: l in LinksOf(w.links, id) && l != picked
  }

  lemma MoreThanOne(s: set<int>, x: int)
    requires x in s
    ensures |s| > 1 <==> exists y :: y in s && y != x
  {
    var rest := s - {x};
    assert |rest| == |s| - 1;
    if rest != {} {
      assert |rest| != 0;
      ghost var y := Pick(rest);
      assert y in rest;
    } else {
      assert forall y :: y in s ==> y == x;
    }
  }

  // ---------- refusals ----------

  lemma RefusedCallbackKeeps(w: World, provider: string, state: string, identity: Option<Identity>, drawn: Drawn)
    requires OAuthCallback(w, provider, state, identity, drawn).1.Refused?
    ensures
      var w' := OAuthCallback(w, provider, state, identity, drawn).0;
      && w'.users == w.users && w'.userRoles == w.userRoles && w'.issued == w.issued
      && w'.redis - {OAuthState(state)} == w.redis - {OAuthState(state)}
  {
  }

  /** A refused request changes nothing; a refused callback at most uses its state up and links an inactive user. */
  lemma RefusalsChangeNothing(w: World, step: Step)
    requires Apply(w, step).1.Refused?
    ensures !step.Callback? ==> Next(w, step) == w
    ensures Next(w, step).users == w.users && Next(w, step).userRoles == w.userRoles && Next(w, step).issued == w.issued
  {
    if step.Callback? {
      RefusedCallbackKeeps(w, step.provider, step.state, step.identity, step.drawn);
    }
  }
}
