// Which tokens are accepted, exactly, told from the history of requests: how long a logout or a use lasts, and whom
// a token acts for.
module AccountTokens {
  import opened Wrappers
  import opened Accounts
  import opened AccountInvariants
  import opened AccountRuns
  import opened AccountHistory
  import Decimal

  // ---------- marks, told from the requests ----------

  /** The deadline of a mark written for a token, if one is written. */
  function MarkDeadline(token: Token, now: int): Option<int> {
    var ttl := RemainingTtlSeconds(token.exp, now);
    if ttl > 0 then Some(now + ttl * SECOND) else None
  }

  /**
   * The deadline a step writes under a key: a logout for the tokens it names, a reset or verification for its token.
   */
  ghost function MarkedBy(w: World, step: Step, key: Key): Option<int> {
    match step
    case LogOut(access, refresh) =>
      if Logout(w, access, refresh).1 != Done then
        None
      else if refresh.Some? && key == BlacklistedToken(refresh.value.jti) && Decodes(w, refresh.value, RefreshToken)
              && MarkDeadline(refresh.value, w.now).Some? then
        MarkDeadline(refresh.value, w.now)
      else if key == BlacklistedToken(access.jti) then
        MarkDeadline(access, w.now)
      else
        None
    case Verification(token) =>
      if VerifyEmail(w, token).1 == Done && key == UsedToken(token.jti) then MarkDeadline(token, w.now) else None
    case Reset(token, password) =>
      if ResetPassword(w, token, password).1 == Done && key == UsedToken(token.jti) then
        MarkDeadline(token, w.now)
      else
        None
    case _ => None
  }

  /** The deadline last written under a key in the first `i` steps of a run. */
  ghost function MarkedUntil(worlds: seq<World>, steps: seq<Step>, i: nat, key: Key): Option<int>
    requires i <= |steps| && |worlds| == |steps| + 1
  {
    if i == 0 then
      None
    else
      var latest := MarkedBy(worlds[i - 1], steps[i - 1], key);
      if latest.Some? then latest else MarkedUntil(worlds, steps, i - 1, key)
  }

  ghost predicate HoldsMark(redis: map<Key, Entry>, key: Key, until: Option<int>) {
    && (key in redis <==> until.Some?)
    && (until.Some? ==> redis[key].deadline == until.value)
  }

  function Latest(latest: Option<int>, before: Option<int>): Option<int> {
    if latest.Some? then latest else before
  }

  lemma LogoutHolds(w: World, access: Token, refresh: Option<Token>, key: Key, until: Option<int>)
    requires HoldsMark(w.redis, key, until)
    ensures
      HoldsMark(Logout(w, access, refresh).0.redis, key, Latest(MarkedBy(w, LogOut(access, refresh), key), until))
  {
  }

  lemma VerifyHolds(w: World, token: Token, key: Key, until: Option<int>)
    requires HoldsMark(w.redis, key, until)
    ensures HoldsMark(VerifyEmail(w, token).0.redis, key, Latest(MarkedBy(w, Verification(token), key), until))
  {
  }

  lemma ResetHolds(w: World, token: Token, password: string, key: Key, until: Option<int>)
    requires HoldsMark(w.redis, key, until)
    ensures HoldsMark(ResetPassword(w, token, password).0.redis, key,
                      Latest(MarkedBy(w, Reset(token, password), key), until))
  {
  }

  /** Only logouts, verifications and resets touch marks. */
  lemma OtherStepsHold(w: World, step: Step, key: Key, until: Option<int>)
    requires IsMark(key) && !MarkingStep(step) && HoldsMark(w.redis, key, until)
    ensures MarkedBy(w, step, key).None? && HoldsMark(Next(w, step).redis, key, until)
  {
    if TouchesRowsOnly(step) {
      RowStepsFrame(w, step);
    } else if TokenStep(step) {
      IssuingStepsFrame(w, step);
    } else if step.Callback? {
      CallbackFrame(w, step.provider, step.state, step.identity, step.drawn);
    }
  }

  lemma StepHolds(w: World, step: Step, key: Key, until: Option<int>)
    requires IsMark(key) && HoldsMark(w.redis, key, until)
    ensures HoldsMark(Next(w, step).redis, key, Latest(MarkedBy(w, step, key), until))
  {
    if step.LogOut? {
      LogoutHolds(w, step.access, step.alsoRefresh, key, until);
    } else if step.Verification? {
      VerifyHolds(w, step.token, key, until);
    } else if step.Reset? {
      ResetHolds(w, step.token, step.password, key, until);
    } else {
      OtherStepsHold(w, step, key, until);
    }
  }

  lemma HoldsMarksAt(worlds: seq<World>, steps: seq<Step>, k: nat, key: Key)
    requires IsRun(worlds, steps) && k < |steps| && IsMark(key)
    requires HoldsMark(worlds[k].redis, key, MarkedUntil(worlds, steps, k, key))
    ensures HoldsMark(worlds[k + 1].redis, key, MarkedUntil(worlds, steps, k + 1, key))
  {
    var w, step, until := worlds[k], steps[k], MarkedUntil(worlds, steps, k, key);
    StepHolds(w, step, key, until);
    assert worlds[k + 1] == Next(w, step);
  }

  /** Redis holds exactly the marks that the requests have written, each with the deadline last written. */
  lemma {:induction false} RunHoldsMarks(worlds: seq<World>, steps: seq<Step>, i: nat, key: Key)
    requires IsRun(worlds, steps) && i < |worlds| && IsMark(key)
    ensures HoldsMark(worlds[i].redis, key, MarkedUntil(worlds, steps, i, key))
  {
    if i > 0 {
      RunHoldsMarks(worlds, steps, i - 1, key);
      HoldsMarksAt(worlds, steps, i - 1, key);
    }
  }

  // ---------- accepted tokens ----------

  ghost predicate Marked(worlds: seq<World>, steps: seq<Step>, i: nat, key: Key)
    requires i <= |steps| && |worlds| == |steps| + 1
  {
    MarkedUntil(worlds, steps, i, key).Some? && worlds[i].now < MarkedUntil(worlds, steps, i, key).value
  }

  predicate ActiveWithEmail(w: World, userId: int, email: string) {
    userId in w.users && w.users[userId].email == email && w.users[userId].isActive
  }

  /**
   * An access token acts for a user if and only if it decodes, the last logout that marked it did so until later than
   * now, and the user is active and has its subject as email at this moment, whoever the token was issued to.
   */
  lemma AccessAcceptedIff(worlds: seq<World>, steps: seq<Step>, i: nat, access: Token, userId: int)
    requires IsRun(worlds, steps) && i < |worlds|
    ensures CurrentUser(worlds[i], access) == Ok(userId)
      <==> Decodes(worlds[i], access, AccessToken) && !Marked(worlds, steps, i, BlacklistedToken(access.jti))
           && ActiveWithEmail(worlds[i], userId, access.subject)
  {
    RunHoldsMarks(worlds, steps, i, BlacklistedToken(access.jti));
    RunKeepsInv(worlds, steps, i);
  }

  /** The same for refreshing. */
  lemma RefreshAcceptedIff(worlds: seq<World>, steps: seq<Step>, i: nat, refresh: Token, jti: string)
    requires IsRun(worlds, steps) && i < |worlds|
    ensures RefreshAccessToken(worlds[i], refresh, jti).1.Refreshed?
      <==> Decodes(worlds[i], refresh, RefreshToken) && !Marked(worlds, steps, i, BlacklistedToken(refresh.jti))
           && exists userId :: ActiveWithEmail(worlds[i], userId, refresh.subject)
  {
    RunHoldsMarks(worlds, steps, i, BlacklistedToken(refresh.jti));
    RunKeepsInv(worlds, steps, i);
    var w := worlds[i];
    var found := UserByEmail(w.users, refresh.subject);
    if found.Some? {
      assert ActiveWithEmail(w, found.value, refresh.subject) <==> w.users[found.value].isActive;
    }
  }

  /** A reset succeeds if and only if its token decodes, is not marked, and brings an active user a new password. */
  lemma ResetSucceedsIff(worlds: seq<World>, steps: seq<Step>, i: nat, token: Token, password: string, userId: int)
    requires IsRun(worlds, steps) && i < |worlds| && token.subject == Decimal.IntText(userId)
    ensures ResetPassword(worlds[i], token, password).1 == Done
      <==> Decodes(worlds[i], token, PasswordReset) && !Marked(worlds, steps, i, UsedToken(token.jti))
           && userId in worlds[i].users && worlds[i].users[userId].isActive
           && LastSet(worlds, steps, i, userId) != Some(password)
  {
    RunHoldsMarks(worlds, steps, i, UsedToken(token.jti));
    RunStores(worlds, steps, i, userId);
    Decimal.ParseIntText(userId);
  }

  /** A verification token verifies if and only if it decodes, is not marked, and its user is unverified. */
  lemma VerificationSucceedsIff(worlds: seq<World>, steps: seq<Step>, i: nat, token: Token, userId: int)
    requires IsRun(worlds, steps) && i < |worlds| && token.subject == Decimal.IntText(userId)
    ensures VerifyEmail(worlds[i], token).1 == Done
      <==> Decodes(worlds[i], token, EmailVerification) && !Marked(worlds, steps, i, UsedToken(token.jti))
           && userId in worlds[i].users && !worlds[i].users[userId].isVerified
  {
    RunHoldsMarks(worlds, steps, i, UsedToken(token.jti));
    Decimal.ParseIntText(userId);
  }

  // ---------- how long a mark lasts ----------

  /** From now on the mark is alive whenever the token still decodes. */
  ghost predicate MarkedForGood(w: World, token: Token, key: Key) {
    forall micros: nat :: Decodes(Later(w, micros), token, token.kind) ==> Live(w.redis, key, Later(w, micros).now)
  }

  /** A mark covers the rest of its token's life if and only if its deadline does. */
  lemma DeadlineCovers(w: World, token: Token, key: Key)
    requires Decodes(w, token, token.kind)
    ensures MarkedForGood(w, token, key)
      <==> key in w.redis && w.redis[key].deadline >= token.exp + w.settings.grace
  {
    if MarkedForGood(w, token, key) {
      assert Decodes(Later(w, 0), token, token.kind);
      var left := w.redis[key].deadline - w.now;
      assert !Live(w.redis, key, Later(w, left).now);
      assert !Decodes(Later(w, left), token, token.kind);
    }
  }

  /** In every run: what is left of a token's life is covered if and only if the deadline last written covers it. */
  lemma MarkedForGoodIff(worlds: seq<World>, steps: seq<Step>, i: nat, token: Token, key: Key)
    requires IsRun(worlds, steps) && i < |worlds| && IsMark(key) && Decodes(worlds[i], token, token.kind)
    ensures MarkedForGood(worlds[i], token, key)
      <==> MarkedUntil(worlds, steps, i, key).Some?
           && MarkedUntil(worlds, steps, i, key).value >= token.exp + worlds[i].settings.grace
  {
    RunHoldsMarks(worlds, steps, i, key);
    DeadlineCovers(worlds[i], token, key);
  }

  /** Which deadlines do: those written at whole seconds before `exp`, when there is no grace. */
  lemma WholeSecondsCover(token: Token, now: int, grace: int)
    ensures (MarkDeadline(token, now).Some? && MarkDeadline(token, now).value >= token.exp + grace)
      <==> CoversGrace(token.exp - now, grace)
    ensures grace == 0 && token.exp - now >= SECOND
      ==> (CoversGrace(token.exp - now, grace) <==> (token.exp - now) % SECOND == 0)
  {
  }

  /** A logout is the last one to mark the token, up to step `j`. */
  ghost predicate NotMarkedAgain(worlds: seq<World>, steps: seq<Step>, i: nat, j: nat, key: Key)
    requires j <= |steps| && |worlds| == |steps| + 1
  {
    forall k {:trigger steps[k]} :: i < k < j ==> MarkedBy(worlds[k], steps[k], key).None?
  }

  lemma {:induction false} LastMarkStands(worlds: seq<World>, steps: seq<Step>, i: nat, j: nat, key: Key)
    requires IsRun(worlds, steps) && i < j < |worlds| && NotMarkedAgain(worlds, steps, i, j, key)
    requires MarkedBy(worlds[i], steps[i], key).Some?
    ensures MarkedUntil(worlds, steps, j, key) == MarkedBy(worlds[i], steps[i], key)
    decreases j
  {
    if i + 1 < j {
      LastMarkStands(worlds, steps, i, j - 1, key);
    }
  }

  /**
   * In every later state of every run, a token that was logged out is revoked exactly until the deadline of the last
   * logout that marked it, and for the rest of its life if and only if that logout came at a whole number of seconds,
   * at least one, before its expiry (less the grace, if there is one).
   */
  lemma LogoutLastsIff(worlds: seq<World>, steps: seq<Step>, i: nat, j: nat, access: Token)
    requires IsRun(worlds, steps) && i < |steps| && i < j < |worlds|
    requires steps[i].LogOut? && steps[i].access == access && Apply(worlds[i], steps[i]).1 == Done
    requires steps[i].alsoRefresh.Some? ==> steps[i].alsoRefresh.value.jti != access.jti
    requires MarkDeadline(access, worlds[i].now).Some?
    requires NotMarkedAgain(worlds, steps, i, j, BlacklistedToken(access.jti))
    ensures Blacklisted(worlds[j], access.jti) <==> worlds[j].now < MarkDeadline(access, worlds[i].now).value
    ensures Decodes(worlds[j], access, AccessToken) ==>
              (MarkedForGood(worlds[j], access, BlacklistedToken(access.jti))
               <==> CoversGrace(access.exp - worlds[i].now, worlds[j].settings.grace))
  {
    LastMarkStands(worlds, steps, i, j, BlacklistedToken(access.jti));
    RunHoldsMarks(worlds, steps, j, BlacklistedToken(access.jti));
    if Decodes(worlds[j], access, AccessToken) {
      MarkedForGoodIff(worlds, steps, j, access, BlacklistedToken(access.jti));
      WholeSecondsCover(access, worlds[i].now, worlds[j].settings.grace);
    }
  }

  /** The same for the use of a reset or verification token. */
  lemma UseLastsIff(worlds: seq<World>, steps: seq<Step>, i: nat, j: nat, token: Token)
    requires IsRun(worlds, steps) && i < |steps| && i < j < |worlds|
    requires Spends(worlds[i], steps[i], token) && MarkDeadline(token, worlds[i].now).Some?
    requires NotMarkedAgain(worlds, steps, i, j, UsedToken(token.jti))
    ensures TokenUsed(worlds[j], token.jti) <==> worlds[j].now < MarkDeadline(token, worlds[i].now).value
    ensures Decodes(worlds[j], token, token.kind) ==>
              (MarkedForGood(worlds[j], token, UsedToken(token.jti))
               <==> CoversGrace(token.exp - worlds[i].now, worlds[j].settings.grace))
  {
    LastMarkStands(worlds, steps, i, j, UsedToken(token.jti));
    RunHoldsMarks(worlds, steps, j, UsedToken(token.jti));
    if Decodes(worlds[j], token, token.kind) {
      MarkedForGoodIff(worlds, steps, j, token, UsedToken(token.jti));
      WholeSecondsCover(token, worlds[i].now, worlds[j].settings.grace);
    }
  }

  /** One and a half seconds before expiry: a second after its logout the token acts for its user again. */
  lemma LoggedOutTokenReturns(w: World, access: Token)
    requires CurrentUser(w, access).Ok? && access.exp - w.now == 1_500_000 && w.settings.grace == 0
    ensures CurrentUser(Logout(w, access, None).0, access) == Err(TokenRevoked)
    ensures CurrentUser(Later(Logout(w, access, None).0, 1_000_000), access) == CurrentUser(w, access)
  {
  }

  /** ... and a second after a reset its token sets another password. */
  lemma SpentTokenReturns(w: World, token: Token, password: string, another: string)
    requires ResetPassword(w, token, password).1 == Done && another != password
    requires token.exp - w.now == 1_500_000 && w.settings.grace == 0
    ensures ResetPassword(Later(ResetPassword(w, token, password).0, 1_000_000), token, another).1 == Done
  {
  }

  /** A repeated logout can shorten the revocation: after the first one the token was revoked for good. */
  lemma RepeatedLogoutReopens(w: World, access: Token)
    requires CurrentUser(w, access).Ok? && access.exp - w.now == 3 * SECOND && w.settings.grace == 0
    ensures
      var once := Logout(w, access, None).0;
      var twice := Logout(Later(once, 500_000), access, None).0;
      RefusedFromNowOn(once, access) && CurrentUser(Later(twice, 2_000_000), access) == CurrentUser(w, access)
  {
    LogoutEffectiveIff(w, access);
  }

  // ---------- tokens that name a former email ----------

  ghost predicate EmailFree(w: World, email: string) {
    forall id :: id in w.users ==> w.users[id].email != email
  }

  /** A request that gives a user this email, told from its outcome. */
  ghost predicate Takes(w: World, step: Step, email: string) {
    match step
    case Register(given, _, _, _) => Lower(given) == email && Apply(w, step).1.Registered?
    case UpdateEmail(_, given) => Lower(given) == email && Apply(w, step).1 == Done
    case Callback(_, _, _, _) => SignedInAs(Apply(w, step).1, email)
    case _ => false
  }

  lemma CallbackTakesIff(w: World, provider: string, state: string, identity: Option<Identity>, drawn: Drawn,
                         email: string)
    requires EmailFree(w, email) && drawn.userId !in w.users
    ensures EmailFree(OAuthCallback(w, provider, state, identity, drawn).0, email)
      <==> !Takes(w, Callback(provider, state, identity, drawn), email)
  {
    var consumed := w.(redis := w.redis - {OAuthState(state)});
    if ClientRefusal(w.settings, provider).None? && Live(w.redis, OAuthState(state), w.now) && identity.Some? {
      match LinkingUser(w.redis[OAuthState(state)].value)
      case Some(userId) => LinkingTakesNothing(consumed, userId, provider, identity.value, drawn, email);
      case None => LoginTakesIff(consumed, provider, identity.value, drawn, email);
    }
  }

  predicate SignedInAs(outcome: Outcome, email: string) {
    outcome.SignedIn? && outcome.access.subject == email
  }

  lemma LinkingTakesNothing(w: World, userId: int, provider: string, identity: Identity, drawn: Drawn, email: string)
    requires EmailFree(w, email)
    ensures
      var (w', outcome) := CompleteLinking(w, userId, provider, identity, drawn);
      EmailFree(w', email) && !SignedInAs(outcome, email)
  {
  }

  lemma LoginTakesIff(w: World, provider: string, identity: Identity, drawn: Drawn, email: string)
    requires EmailFree(w, email) && drawn.userId !in w.users
    ensures
      var (w', outcome) := CompleteLogin(w, provider, identity, drawn);
      EmailFree(w', email) <==> !SignedInAs(outcome, email)
  {
    var (w', outcome) := CompleteLogin(w, provider, identity, drawn);
    if w'.users != w.users {
      assert w'.users[drawn.userId].email == outcome.access.subject;
    }
  }

  lemma RegisterTakesIff(w: World, given: string, password: string, id: int, jti: string, email: string)
    requires EmailFree(w, email) && id !in w.users
    ensures EmailFree(RegisterUser(w, given, password, id, jti).0, email)
      <==> !Takes(w, Register(given, password, id, jti), email)
  {
    var (w', outcome) := RegisterUser(w, given, password, id, jti);
    if outcome.Registered? {
      assert id in w'.users;
    }
  }

  lemma UpdateTakesIff(w: World, access: Token, given: string, email: string)
    requires EmailFree(w, email)
    ensures EmailFree(UpdateUserEmail(w, access, given).0, email) <==> !Takes(w, UpdateEmail(access, given), email)
  {
    var (w', outcome) := UpdateUserEmail(w, access, given);
    if outcome == Done {
      assert CurrentUser(w, access).value in w'.users;
    }
  }

  lemma OtherStepsKeepEmails(w: World, step: Step, id: int)
    requires !step.Register? && !step.UpdateEmail? && !step.Callback? && id in Next(w, step).users
    ensures id in w.users && Next(w, step).users[id].email == w.users[id].email
  {
  }

  lemma StaysFreeIff(w: World, step: Step, email: string)
    requires Inv(w) && Enabled(w, step) && EmailFree(w, email)
    ensures EmailFree(Next(w, step), email) <==> !Takes(w, step, email)
  {
    if step.Callback? {
      CallbackTakesIff(w, step.provider, step.state, step.identity, step.drawn, email);
    } else if step.Register? {
      RegisterTakesIff(w, step.email, step.password, step.id, step.jti, email);
    } else if step.UpdateEmail? {
      UpdateTakesIff(w, step.access, step.email, email);
    } else {
      forall id | id in Next(w, step).users ensures Next(w, step).users[id].email != email {
        OtherStepsKeepEmails(w, step, id);
      }
    }
  }

  ghost predicate NeverTaken(worlds: seq<World>, steps: seq<Step>, email: string, i: nat, j: nat)
    requires |worlds| == |steps| + 1 && j <= |steps|
  {
    forall k {:trigger steps[k]} :: i <= k < j ==> !Takes(worlds[k], steps[k], email)
  }

  lemma {:induction false} FreeUntilTaken(worlds: seq<World>, steps: seq<Step>, email: string, i: nat, j: nat)
    requires IsRun(worlds, steps) && i <= j < |worlds|
    requires EmailFree(worlds[i], email) && NeverTaken(worlds, steps, email, i, j)
    ensures EmailFree(worlds[j], email)
    decreases j
  {
    if i < j {
      FreeUntilTaken(worlds, steps, email, i, j - 1);
      RunKeepsInv(worlds, steps, j - 1);
      StaysFreeIff(worlds[j - 1], steps[j - 1], email);
      assert worlds[j - 1 + 1] == Next(worlds[j - 1], steps[j - 1]);
    }
  }

  /** A successful change to another email frees the old one. */
  lemma ChangeFreesOldEmail(w: World, access: Token, newEmail: string)
    requires Inv(w) && UpdateUserEmail(w, access, newEmail).1 == Done
    requires w.users[CurrentUser(w, access).value].email != Lower(newEmail)
    ensures EmailFree(UpdateUserEmail(w, access, newEmail).0, w.users[CurrentUser(w, access).value].email)
  {
    var id := CurrentUser(w, access).value;
    var former, w' := w.users[id].email, UpdateUserEmail(w, access, newEmail).0;
    forall other | other in w'.users ensures w'.users[other].email != former {
      if other != id {
        assert w.users[other].email != former;
      }
    }
  }

  /**
   * After a change of email, tokens naming the old one act for nobody and it cannot be used to log in, in every later
   * state until a request gives that email to some user. From then on `AccessAcceptedIff` says whom they act for.
   */
  lemma OldEmailRetiredUntilTaken(worlds: seq<World>, steps: seq<Step>, i: nat, j: nat, stale: Token,
                                  given: string, password: string, accessJti: string, refreshJti: string)
    requires IsRun(worlds, steps) && i < |steps| && i < j < |worlds|
    requires steps[i].UpdateEmail? && Apply(worlds[i], steps[i]).1 == Done
    requires stale.subject == worlds[i].users[CurrentUser(worlds[i], steps[i].access).value].email
      != Lower(steps[i].email)
    requires NeverTaken(worlds, steps, stale.subject, i + 1, j) && Lower(given) == stale.subject
    ensures CurrentUser(worlds[j], stale).Err?
    ensures LoginUser(worlds[j], given, password, accessJti, refreshJti).1 == Refused(InvalidCredentials)
  {
    RunKeepsInv(worlds, steps, i);
    ChangeFreesOldEmail(worlds[i], steps[i].access, steps[i].email);
    assert worlds[i + 1] == Next(worlds[i], steps[i]);
    FreeUntilTaken(worlds, steps, stale.subject, i + 1, j);
  }

  /**
   * The other case is real: user A changes the email, user B takes it over, and A's own unexpired token now acts
   * for B.
   */
  lemma OldTokenActsForNewOwner(w: World, a: Token, b: Token, newEmail: string, taken: string)
    requires Inv(w) && UpdateUserEmail(w, a, newEmail).1 == Done && Lower(newEmail) != a.subject
    requires CurrentUser(w, b).Ok? && CurrentUser(w, b) != CurrentUser(w, a) && Lower(taken) == a.subject
    ensures
      var (w1, w2) :=
        (UpdateUserEmail(w, a, newEmail).0, UpdateUserEmail(UpdateUserEmail(w, a, newEmail).0, b, taken).0);
      && UpdateUserEmail(w1, b, taken).1 == Done
      && CurrentUser(w2, a) == CurrentUser(w, b)
  {
    var idA, idB := CurrentUser(w, a).value, CurrentUser(w, b).value;
    var w1 := UpdateUserEmail(w, a, newEmail).0;
    ChangeFreesOldEmail(w, a, newEmail);
    UpdateEmailKeepsInv(w, a, newEmail);
    assert w1.users[idB] == w.users[idB];
    assert UserByEmail(w1.users, b.subject) == Some(idB);
    assert CurrentUser(w1, b) == Ok(idB) && EmailFree(w1, a.subject);
    var w2 := UpdateUserEmail(w1, b, taken).0;
    assert w2.users[idB].email == a.subject && w2.users[idB].isActive;
    assert UserByEmail(w2.users, a.subject) == Some(idB);
  }
}
