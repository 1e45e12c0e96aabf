// Where the state of an account comes from: passwords, OAuth states, links, roles, and the cleanup.
module AccountHistory {
  import opened Wrappers
  import opened Accounts
  import opened AccountInvariants
  import opened AccountRuns
  import Decimal
  import Rbac

  // ---------- passwords ----------

  /** The password a step sets for a user, told from the request and its outcome. */
  ghost function SetBy(w: World, step: Step, userId: int): Option<string> {
    var outcome := Apply(w, step).1;
    match step
    case Register(_, password, id, _) => if outcome.Registered? && id == userId then Some(password) else None
    case Reset(token, password) =>
      if outcome == Done && token.subject == Decimal.IntText(userId) then Some(password) else None
    case ChangePassword(access, _, newPassword) =>
      if outcome == Done && CurrentUser(w, access) == Ok(userId) then Some(newPassword) else None
    case _ => None
  }

  /** The password last set for a user in the first `i` steps of a run. */
  ghost function LastSet(worlds: seq<World>, steps: seq<Step>, i: nat, userId: int): Option<string>
    requires i <= |steps| && |worlds| == |steps| + 1
  {
    if i == 0 then
      None
    else
      var latest := SetBy(worlds[i - 1], steps[i - 1], userId);
      if latest.Some? then latest else LastSet(worlds, steps, i - 1, userId)
  }

  ghost predicate Stores(w: World, userId: int, password: Option<string>) {
    && (password.Some? ==> userId in w.usedIds)
    && (userId in w.users ==>
          match password
          case None => w.users[userId].hashedPassword == None
          case Some(p) => w.users[userId].hashedPassword == Some(Hash(p)))
  }

  /** Whether a step may change a password or create an account. */
  predicate PasswordStep(step: Step) {
    step.Register? || step.Reset? || step.ChangePassword? || step.Callback?
  }

  lemma PasswordsUntouched(w: World, step: Step, userId: int)
    requires !PasswordStep(step) && userId in Next(w, step).users
    ensures userId in w.users && Next(w, step).users[userId].hashedPassword == w.users[userId].hashedPassword
  {
  }

  lemma ResetStores(w: World, token: Token, newPassword: string, userId: int, password: Option<string>)
    requires UsersInv(w) && SubjectsInv(w) && Stores(w, userId, password)
    ensures
      var latest := SetBy(w, Reset(token, newPassword), userId);
      Stores(ResetPassword(w, token, newPassword).0, userId, if latest.Some? then latest else password)
  {
    if ResetPassword(w, token, newPassword).1 == Done {
      var id :| id in w.usedIds && token.subject == Decimal.IntText(id);
      Decimal.ParseIntText(id);
      if token.subject == Decimal.IntText(userId) {
        Decimal.IntTextInjective(id, userId);
      }
    }
  }

  lemma ChangeStores(w: World, access: Token, currentPassword: string, newPassword: string, userId: int,
                     password: Option<string>)
    requires UsersInv(w) && Stores(w, userId, password)
    ensures
      var latest := SetBy(w, ChangePassword(access, currentPassword, newPassword), userId);
      Stores(ChangeUserPassword(w, access, currentPassword, newPassword).0, userId,
             if latest.Some? then latest else password)
  {
  }

  lemma RegisterStores(w: World, email: string, newPassword: string, id: int, jti: string, userId: int,
                       password: Option<string>)
    requires Stores(w, userId, password) && id !in w.usedIds
    ensures
      var latest := SetBy(w, Register(email, newPassword, id, jti), userId);
      Stores(RegisterUser(w, email, newPassword, id, jti).0, userId, if latest.Some? then latest else password)
  {
  }

  lemma StepStores(w: World, step: Step, userId: int, password: Option<string>)
    requires Inv(w) && SubjectsInv(w) && Enabled(w, step) && Stores(w, userId, password)
    ensures
      var latest := SetBy(w, step, userId);
      Stores(Next(w, step), userId, if latest.Some? then latest else password)
  {
    match step
    case Register(email, newPassword, id, jti) => RegisterStores(w, email, newPassword, id, jti, userId, password);
    case Reset(token, newPassword) => ResetStores(w, token, newPassword, userId, password);
    case ChangePassword(access, currentPassword, newPassword) =>
      ChangeStores(w, access, currentPassword, newPassword, userId, password);
    case Callback(provider, state, identity, drawn) =>
      CallbackStores(w, provider, state, identity, drawn, userId, password);
    case _ => OtherStepStores(w, step, userId, password);
  }

  lemma OtherStepStores(w: World, step: Step, userId: int, password: Option<string>)
    requires !PasswordStep(step) && Stores(w, userId, password)
    ensures SetBy(w, step, userId).None? && Stores(Next(w, step), userId, password)
  {
    StepGrows(w, step);
    if userId in Next(w, step).users {
      PasswordsUntouched(w, step, userId);
    }
  }

  lemma CallbackStores(w: World, provider: string, state: string, identity: Option<Identity>, drawn: Drawn,
                       userId: int, password: Option<string>)
    requires Enabled(w, Callback(provider, state, identity, drawn)) && Stores(w, userId, password)
    ensures Stores(OAuthCallback(w, provider, state, identity, drawn).0, userId, password)
  {
  }

  lemma {:induction false} RunStores(worlds: seq<World>, steps: seq<Step>, i: nat, userId: int)
    requires IsRun(worlds, steps) && i < |worlds|
    ensures Stores(worlds[i], userId, LastSet(worlds, steps, i, userId))
  {
    if i > 0 {
      RunStores(worlds, steps, i - 1, userId);
      RunKeepsInv(worlds, steps, i - 1);
      RunKeepsSubjects(worlds, steps, i - 1);
      StepStores(worlds[i - 1], steps[i - 1], userId, LastSet(worlds, steps, i - 1, userId));
    }
  }

  /** Who may log in, told from the history of requests. */
  ghost predicate MayLogIn(worlds: seq<World>, steps: seq<Step>, i: nat, email: string, password: string, userId: int)
    requires i <= |steps| && |worlds| == |steps| + 1
  {
    && userId in worlds[i].users && worlds[i].users[userId].email == Lower(email)
    && worlds[i].users[userId].isVerified && worlds[i].users[userId].isActive
    && LastSet(worlds, steps, i, userId) == Some(password)
  }

  /**
   * Login succeeds exactly with the password last set by registration, reset or change, for a verified and active
   * user; users created through OAuth match no password until a reset sets one.
   */
  lemma LoginMatchesLastSet(worlds: seq<World>, steps: seq<Step>, i: nat, email: string, password: string,
                            accessJti: string, refreshJti: string)
    requires IsRun(worlds, steps) && i < |worlds|
    ensures (exists userId :: MayLogIn(worlds, steps, i, email, password, userId))
            <==> LoginUser(worlds[i], email, password, accessJti, refreshJti).1.SignedIn?
  {
    var w := worlds[i];
    RunKeepsInv(worlds, steps, i);
    match UserByEmail(w.users, Lower(email))
    case None =>
    case Some(id) =>
      RunStores(worlds, steps, i, id);
      if LoginUser(w, email, password, accessJti, refreshJti).1.SignedIn? {
        assert MayLogIn(worlds, steps, i, email, password, id);
      }
      forall userId | MayLogIn(worlds, steps, i, email, password, userId) ensures userId == id {
      }
  }

  /** A reset or change always replaces the password by a different one. */
  lemma NewPasswordDiffers(worlds: seq<World>, steps: seq<Step>, i: nat, userId: int)
    requires IsRun(worlds, steps) && i < |steps|
    requires steps[i].Reset? || steps[i].ChangePassword?
    requires SetBy(worlds[i], steps[i], userId).Some?
    ensures LastSet(worlds, steps, i + 1, userId) != LastSet(worlds, steps, i, userId)
  {
    RunStores(worlds, steps, i, userId);
    DiffersFromStored(worlds[i], steps[i], userId, LastSet(worlds, steps, i, userId));
  }

  lemma DiffersFromStored(w: World, step: Step, userId: int, password: Option<string>)
    requires step.Reset? || step.ChangePassword?
    requires SetBy(w, step, userId).Some? && Stores(w, userId, password)
    ensures SetBy(w, step, userId) != password
  {
    if step.Reset? {
      Decimal.ParseIntText(userId);
    }
  }

  // ---------- OAuth states ----------

  /** The callback gets past the state check, which deletes the state. */
  ghost predicate ConsumesState(w: World, step: Step, state: string) {
    step.Callback? && step.state == state && ClientRefusal(w.settings, step.provider).None?
    && Live(w.redis, OAuthState(state), w.now)
  }

  lemma StateStaysGone(w: World, step: Step, state: string)
    requires Enabled(w, step) && state in w.usedStates && OAuthState(state) !in w.redis
    ensures state in Next(w, step).usedStates && OAuthState(state) !in Next(w, step).redis
  {
    if TouchesRowsOnly(step) {
      RowStepsFrame(w, step);
    } else if TokenStep(step) {
      TokenStepsFrame(w, step);
    } else if step.Callback? {
      CallbackFrame(w, step.provider, step.state, step.identity, step.drawn);
    }
  }

  lemma StateStaysGoneAt(worlds: seq<World>, steps: seq<Step>, state: string, k: nat)
    requires IsRun(worlds, steps) && k < |steps| && k < |worlds|
    requires state in worlds[k].usedStates && OAuthState(state) !in worlds[k].redis
    ensures k + 1 < |worlds| && state in worlds[k + 1].usedStates && OAuthState(state) !in worlds[k + 1].redis
  {
    StateStaysGone(worlds[k], steps[k], state);
  }

  lemma {:induction false} StateGoneLater(worlds: seq<World>, steps: seq<Step>, state: string, i: nat, j: nat)
    requires IsRun(worlds, steps) && i <= j < |worlds|
    requires state in worlds[i].usedStates && OAuthState(state) !in worlds[i].redis
    ensures state in worlds[j].usedStates && OAuthState(state) !in worlds[j].redis
  {
    if i < j {
      StateGoneLater(worlds, steps, state, i, j - 1);
      StateStaysGoneAt(worlds, steps, state, j - 1);
    }
  }

  lemma ConsumedStateIsGone(w: World, step: Step, state: string)
    requires ConsumesState(w, step, state)
    ensures OAuthState(state) !in Next(w, step).redis
  {
    CallbackConsumes(w, step.provider, state, step.identity, step.drawn);
  }

  lemma CallbackConsumes(w: World, provider: string, state: string, identity: Option<Identity>, drawn: Drawn)
    requires ClientRefusal(w.settings, provider).None? && Live(w.redis, OAuthState(state), w.now)
    ensures OAuthState(state) !in OAuthCallback(w, provider, state, identity, drawn).0.redis
  {
    var consumed := w.(redis := w.redis - {OAuthState(state)});
    if identity.Some? {
      match LinkingUser(w.redis[OAuthState(state)].value)
      case Some(userId) => LinkingFrame(consumed, userId, provider, identity.value, drawn);
      case None => LoginFrame(consumed, provider, identity.value, drawn);
    }
  }

  /** Each state value is consumed by at most one callback. */
  lemma StateConsumedOnce(worlds: seq<World>, steps: seq<Step>, state: string, i: nat, j: nat)
    requires IsRun(worlds, steps) && i < |steps| && j < |steps|
    requires ConsumesState(worlds[i], steps[i], state) && ConsumesState(worlds[j], steps[j], state)
    ensures i == j
  {
    if i != j {
      var a, b := if i < j then i else j, if i < j then j else i;
      RunKeepsInv(worlds, steps, a);
      assert worlds[a + 1] == Next(worlds[a], steps[a]);
      ConsumedStateIsGone(worlds[a], steps[a], state);
      StepGrows(worlds[a], steps[a]);
      StateGoneLater(worlds, steps, state, a + 1, b);
      assert false;
    }
  }

  /** Step `i` started the sign-in or linking that wrote this value. */
  ghost predicate WroteState(w: World, step: Step, state: string, value: string) {
    && Apply(w, step).1 == Done
    && ((step.StartLogin? && step.state == state && value == LOGIN_STATE)
        || (step.StartLink? && step.state == state && CurrentUser(w, step.access).Ok?
            && value == LinkState(CurrentUser(w, step.access).value)))
  }

  lemma StateOriginStep(w: World, step: Step, state: string)
    requires OAuthState(state) in Next(w, step).redis
    ensures (OAuthState(state) in w.redis && w.redis[OAuthState(state)] == Next(w, step).redis[OAuthState(state)])
            || WroteState(w, step, state, Next(w, step).redis[OAuthState(state)].value)
  {
    if TouchesRowsOnly(step) {
      RowStepsFrame(w, step);
    } else if TokenStep(step) {
      TokenStepsFrame(w, step);
    } else if step.Callback? {
      CallbackFrame(w, step.provider, step.state, step.identity, step.drawn);
    }
  }

  ghost predicate StateOriginAt(worlds: seq<World>, steps: seq<Step>, state: string, k: nat)
    requires k < |steps| && |worlds| == |steps| + 1 && OAuthState(state) in worlds[k + 1].redis
  {
    WroteState(worlds[k], steps[k], state, worlds[k + 1].redis[OAuthState(state)].value)
  }

  lemma StateNotWrittenAt(worlds: seq<World>, steps: seq<Step>, state: string, k: nat)
    requires IsRun(worlds, steps) && k < |steps| && OAuthState(state) in worlds[k + 1].redis
    requires !StateOriginAt(worlds, steps, state, k)
    ensures OAuthState(state) in worlds[k].redis
    ensures worlds[k].redis[OAuthState(state)] == worlds[k + 1].redis[OAuthState(state)]
  {
    StateOriginStep(worlds[k], steps[k], state);
  }

  /** Every state in Redis was written by a request of this run, and holds what that request wrote. */
  lemma {:induction false} StateOrigin(worlds: seq<World>, steps: seq<Step>, state: string, j: nat) returns (i: nat)
    requires IsRun(worlds, steps) && j < |worlds|
    requires OAuthState(state) in worlds[j].redis
    ensures i < j && OAuthState(state) in worlds[i + 1].redis && StateOriginAt(worlds, steps, state, i)
    ensures worlds[i + 1].redis[OAuthState(state)] == worlds[j].redis[OAuthState(state)]
  {
    if j == 0 {
      assert false;
    } else {
      if StateOriginAt(worlds, steps, state, j - 1) {
        i := j - 1;
      } else {
        StateNotWrittenAt(worlds, steps, state, j - 1);
        i := StateOrigin(worlds, steps, state, j - 1);
      }
    }
  }

  /** Step `i` is the authenticated request by which `userId` asked to link, drawing `state`. */
  ghost predicate StartedLinking(w: World, step: Step, state: string, userId: int) {
    step.StartLink? && step.state == state && CurrentUser(w, step.access) == Ok(userId)
  }

  ghost predicate LinkingWasStarted(worlds: seq<World>, steps: seq<Step>, j: nat, state: string, userId: int)
    requires j <= |steps| && |worlds| == |steps| + 1
  {
    exists i: nat :: i < j && StartedLinking(worlds[i], steps[i], state, userId)
  }

  /**
   * A callback that finishes a linking acts for the user who started it: it creates no account, and every link it
   * adds belongs to that user.
   */
  lemma LinkingActsForItsStarter(worlds: seq<World>, steps: seq<Step>, j: nat, userId: int)
    requires IsRun(worlds, steps) && j < |steps|
    requires steps[j].Callback? && ConsumesState(worlds[j], steps[j], steps[j].state)
    requires LinkingUser(worlds[j].redis[OAuthState(steps[j].state)].value) == Some(userId)
    ensures LinkingWasStarted(worlds, steps, j, steps[j].state, userId)
    ensures worlds[j + 1].users == worlds[j].users
    ensures forall l :: l in worlds[j + 1].links && l !in worlds[j].links ==> worlds[j + 1].links[l].userId == userId
  {
    LinkingHasStarter(worlds, steps, j, steps[j].state, userId);
    LinkingEffect(worlds[j], steps[j].provider, steps[j].state, steps[j].identity, steps[j].drawn, userId);
  }

  lemma LinkingHasStarter(worlds: seq<World>, steps: seq<Step>, j: nat, state: string, userId: int)
    requires IsRun(worlds, steps) && j < |worlds| && OAuthState(state) in worlds[j].redis
    requires LinkingUser(worlds[j].redis[OAuthState(state)].value) == Some(userId)
    ensures LinkingWasStarted(worlds, steps, j, state, userId)
  {
    var i := StateOrigin(worlds, steps, state, j);
    StartedByWriter(worlds[i], steps[i], state, worlds[j].redis[OAuthState(state)].value, userId);
  }

  lemma StartedByWriter(w: World, step: Step, state: string, value: string, userId: int)
    requires WroteState(w, step, state, value) && LinkingUser(value) == Some(userId)
    ensures StartedLinking(w, step, state, userId)
  {
    LinkStateRoundTrip(if step.StartLink? then CurrentUser(w, step.access).value else 0);
  }

  lemma LinkingEffect(w: World, provider: string, state: string, identity: Option<Identity>, drawn: Drawn, userId: int)
    requires Live(w.redis, OAuthState(state), w.now) && LinkingUser(w.redis[OAuthState(state)].value) == Some(userId)
    ensures
      var w' := OAuthCallback(w, provider, state, identity, drawn).0;
      w'.users == w.users && forall l :: l in w'.links && l !in w.links ==> w'.links[l].userId == userId
  {
  }

  // ---------- links ----------

  /** The only steps that take a link away. */
  ghost predicate Removes(w: World, step: Step, l: int)
    requires l in w.links
  {
    || (step.Unlink? && step.picked == l && Apply(w, step).1 == Done)
    || (step.Cleanup? && w.links[l].userId in Stale(w.users, w.now - UNVERIFIED_USER_MAX_AGE))
  }

  lemma LinkKeptByStep(w: World, step: Step, l: int)
    requires Inv(w) && Enabled(w, step) && l in w.links && !Removes(w, step, l)
    ensures l in Next(w, step).links && Next(w, step).links[l] == w.links[l]
  {
    if TokenStep(step) {
      TokenStepsFrame(w, step);
    } else if step.Callback? {
      CallbackKeepsLinks(w, step.provider, step.state, step.identity, step.drawn);
    } else if step.Unlink? || step.Cleanup? {
      RemovalsKeepOthers(w, step, l);
    } else {
      LinksUntouched(w, step);
    }
  }

  lemma CallbackKeepsLinks(w: World, provider: string, state: string, identity: Option<Identity>, drawn: Drawn)
    requires drawn.linkId !in w.links
    ensures
      var w' := OAuthCallback(w, provider, state, identity, drawn).0;
      forall l :: l in w.links ==> l in w'.links && w'.links[l] == w.links[l]
  {
  }

  lemma RemovalsKeepOthers(w: World, step: Step, l: int)
    requires (step.Unlink? || step.Cleanup?) && l in w.links && !Removes(w, step, l)
    ensures l in Next(w, step).links && Next(w, step).links[l] == w.links[l]
  {
  }

  lemma LinksUntouched(w: World, step: Step)
    requires !TokenStep(step) && !step.Callback? && !step.Unlink? && !step.Cleanup?
    ensures Next(w, step).links == w.links
  {
  }

  ghost predicate NeverRemoved(worlds: seq<World>, steps: seq<Step>, l: int, i: nat, j: nat)
    requires |worlds| == |steps| + 1 && j <= |steps|
  {
    forall k {:trigger steps[k]} :: i <= k < j && l in worlds[k].links ==> !Removes(worlds[k], steps[k], l)
  }

  lemma LinkKeptAt(worlds: seq<World>, steps: seq<Step>, l: int, i: nat, k: nat, j: nat)
    requires IsRun(worlds, steps) && i <= k < j < |worlds| && l in worlds[k].links
    requires NeverRemoved(worlds, steps, l, i, j)
    ensures l in worlds[k + 1].links && worlds[k + 1].links[l] == worlds[k].links[l]
  {
    RunKeepsInv(worlds, steps, k);
    LinkKeptByStep(worlds[k], steps[k], l);
  }

  lemma {:induction false} LinkKept(worlds: seq<World>, steps: seq<Step>, l: int, i: nat, k: nat, j: nat)
    requires IsRun(worlds, steps) && i <= k <= j < |worlds|
    requires l in worlds[i].links && NeverRemoved(worlds, steps, l, i, j)
    ensures l in worlds[k].links && worlds[k].links[l] == worlds[i].links[l]
    decreases k
  {
    if i < k {
      LinkKept(worlds, steps, l, i, k - 1, j);
      LinkKeptAt(worlds, steps, l, i, k - 1, j);
    }
  }

  /**
   * Once an identity is linked, every successful callback for it, to sign in or to link, signs in the user it is
   * linked to, until that link is unlinked or the user deleted.
   */
  lemma IdentityResolves(worlds: seq<World>, steps: seq<Step>, l: int, i: nat, j: nat)
    requires IsRun(worlds, steps) && i <= j < |steps|
    requires l in worlds[i].links && NeverRemoved(worlds, steps, l, i, j)
    requires steps[j].Callback? && steps[j].identity.Some?
    requires IsIdentity(worlds[i].links[l], steps[j].provider, steps[j].identity.value.providerUserId)
    requires Apply(worlds[j], steps[j]).1.SignedIn?
    ensures
      var owner := worlds[i].links[l].userId;
      && owner in worlds[j].users
      && Apply(worlds[j], steps[j]).1.access.subject == worlds[j].users[owner].email
      && Apply(worlds[j], steps[j]).1.refresh.subject == worlds[j].users[owner].email
      && worlds[j + 1].users == worlds[j].users && worlds[j + 1].links == worlds[j].links
  {
    var w := worlds[j];
    LinkKept(worlds, steps, l, i, j, j);
    RunKeepsInv(worlds, steps, j);
    var found := LinkByIdentity(w.links, steps[j].provider, steps[j].identity.value.providerUserId);
    assert found.Some?;
    assert SameIdentity(w.links[found.value], w.links[l]);
    assert worlds[j + 1] == Next(w, steps[j]);
  }

  // ---------- roles ----------

  /**
   * A user gains a role only by registering (the default role), from a caller who holds `roles:manage`, or from the
   * operator.
   */
  lemma RolesComeFromManagers(w: World, step: Step, userId: int, role: string)
    requires (userId, role) in Next(w, step).userRoles && (userId, role) !in w.userRoles
    ensures
      || (step.Register? && step.id == userId && role == Rbac.DEFAULT_USER_ROLE_NAME)
      || (step.AdminAssign? && step.userId == userId && step.role == role
          && Permitted(w, step.access, {"roles:manage"}).Ok?)
      || step == DatabaseGrant(userId, role)
  {
    if !step.Register? && !step.AdminAssign? && !step.DatabaseGrant? {
      if step.Callback? {
        CallbackKeepsRoles(w, step.provider, step.state, step.identity, step.drawn);
      } else {
        OtherStepsGiveNoRole(w, step);
      }
    }
  }

  lemma CallbackKeepsRoles(w: World, provider: string, state: string, identity: Option<Identity>, drawn: Drawn)
    ensures OAuthCallback(w, provider, state, identity, drawn).0.userRoles == w.userRoles
  {
  }

  lemma OtherStepsGiveNoRole(w: World, step: Step)
    requires !step.Register? && !step.AdminAssign? && !step.Callback? && !step.DatabaseGrant?
    ensures Next(w, step).userRoles <= w.userRoles
  {
  }

  // ---------- cleanup ----------

  /**
   * Exactly the unverified users older than the cutoff go; everybody else keeps their row and all that refers to it.
   */
  lemma CleanupRemovesExactly(w: World, cutoff: int, id: int)
    ensures
      var w' := CleanupBefore(w, cutoff).0;
      && (id in w'.users <==> id in w.users && (w.users[id].isVerified || w.users[id].createdAt >= cutoff))
      && (id in w'.users ==> w'.users[id] == w.users[id]
                             && LinksOf(w'.links, id) == LinksOf(w.links, id)
                             && RolesOf(w'.userRoles, id) == RolesOf(w.userRoles, id))
      && (id in w.users && id !in w'.users ==> LinksOf(w'.links, id) == {} && RolesOf(w'.userRoles, id) == {})
  {
    var w' := CleanupBefore(w, cutoff).0;
    var stale := Stale(w.users, cutoff);
    if id !in stale {
      assert LinksOf(w'.links, id) == LinksOf(w.links, id);
      forall role ensures role in RolesOf(w'.userRoles, id) <==> role in RolesOf(w.userRoles, id) {
        assert (id, role) in w'.userRoles <==> (id, role) in w.userRoles;
      }
    }
  }

  /** The reported count is the drop in user rows. */
  lemma CleanupCounts(w: World, cutoff: int)
    ensures CleanupBefore(w, cutoff).1 == Deleted(|w.users| - |CleanupBefore(w, cutoff).0.users|)
  {
    var stale := Stale(w.users, cutoff);
    assert stale <= w.users.Keys;
    assert (w.users - stale).Keys == w.users.Keys - stale;
    assert |w.users.Keys - stale| == |w.users.Keys| - |stale|;
  }

  /** Cleaning up at one cutoff and then at a later one, with nothing in between, is cleaning up once at the later. */
  lemma CleanupComposes(w: World, c1: int, c2: int)
    requires c1 <= c2
    ensures CleanupBefore(CleanupBefore(w, c1).0, c2).0 == CleanupBefore(w, c2).0
    ensures CleanupBefore(w, c1).1.count + CleanupBefore(CleanupBefore(w, c1).0, c2).1.count
      == CleanupBefore(w, c2).1.count
  {
    var first := CleanupBefore(w, c1).0;
    StaleComposes(w.users, c1, c2);
    DeletingComposes(w, Stale(w.users, c1), Stale(first.users, c2));
    CleanupCounts(w, c1);
    CleanupCounts(w, c2);
    CleanupCounts(first, c2);
  }

  lemma StaleComposes(users: map<int, User>, c1: int, c2: int)
    requires c1 <= c2
    ensures Stale(users, c1) + Stale(users - Stale(users, c1), c2) == Stale(users, c2)
  {
  }
}
