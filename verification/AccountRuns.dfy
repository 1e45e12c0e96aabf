// What holds over whole runs of the service.
module AccountRuns {
  import opened Wrappers
  import opened Accounts
  import opened AccountInvariants
  import Decimal

  // ---------- what never goes back ----------

  predicate IsMark(key: Key) {
    !key.OAuthState?
  }

  /** Time does not run backwards, issued tokens stay issued, and marks are overwritten but never removed. */
  ghost predicate Grows(w: World, w': World) {
    && w.now <= w'.now && w.settings == w'.settings
    && w.issued <= w'.issued && w.usedIds <= w'.usedIds && w.usedStates <= w'.usedStates
    && forall key :: IsMark(key) && key in w.redis ==> key in w'.redis
  }

  /** Steps on a user's row, roles or links leave Redis, the clock and the records of drawn values alone. */
  predicate TouchesRowsOnly(step: Step) {
    step.UpdateEmail? || step.ChangePassword? || step.Deactivate? || step.AdminUpdate? || step.AdminDeactivate?
    || step.AdminAssign? || step.AdminRevoke? || step.Unlink? || step.Cleanup? || step.DatabaseGrant?
  }

  lemma RowStepsFrame(w: World, step: Step)
    requires TouchesRowsOnly(step)
    ensures
      var w' := Next(w, step);
      w'.redis == w.redis && w'.now == w.now && w'.settings == w.settings && w'.issued == w.issued
      && w'.usedIds == w.usedIds && w'.usedStates == w.usedStates
  {
  }

  /** Steps that issue tokens, mark tokens or let time pass leave links and OAuth states alone. */
  predicate TokenStep(step: Step) {
    step.Tick? || step.Register? || step.Login? || step.Refresh? || step.LogOut? || step.Verification?
    || step.Forgot? || step.Reset?
  }

  predicate MarkingStep(step: Step) {
    step.LogOut? || step.Verification? || step.Reset?
  }

  /** What marking steps leave alone: everything but users' rows and the marks themselves. */
  ghost predicate OnlyMarks(w: World, w': World) {
    && w'.links == w.links && w'.usedStates == w.usedStates && w'.settings == w.settings && w'.now == w.now
    && w'.issued == w.issued && w'.usedIds == w.usedIds && StatesKept(w.redis, w'.redis)
  }

  lemma LogoutFrame(w: World, access: Token, refresh: Option<Token>)
    ensures OnlyMarks(w, Logout(w, access, refresh).0)
  {
  }

  lemma VerifyFrame(w: World, token: Token)
    ensures OnlyMarks(w, VerifyEmail(w, token).0)
  {
  }

  lemma ResetFrame(w: World, token: Token, password: string)
    ensures OnlyMarks(w, ResetPassword(w, token, password).0)
  {
  }

  /** Logging out, verifying and resetting write marks and issue nothing. */
  lemma MarkingStepsFrame(w: World, step: Step)
    requires MarkingStep(step)
    ensures OnlyMarks(w, Next(w, step))
  {
    match step
    case LogOut(access, alsoRefresh) => LogoutFrame(w, access, alsoRefresh);
    case Verification(token) => VerifyFrame(w, token);
    case Reset(token, password) => ResetFrame(w, token, password);
  }

  /** Other token steps leave Redis alone. */
  lemma IssuingStepsFrame(w: World, step: Step)
    requires TokenStep(step) && !MarkingStep(step)
    ensures
      var w' := Next(w, step);
      && w'.links == w.links && w'.usedStates == w.usedStates && w'.settings == w.settings
      && w.now <= w'.now && w.issued <= w'.issued && w.usedIds <= w'.usedIds && w'.redis == w.redis
  {
  }

  /** No key disappears, and OAuth states are the same. */
  ghost predicate StatesKept(redis: map<Key, Entry>, redis': map<Key, Entry>) {
    && (forall key :: key in redis ==> key in redis')
    && (forall state :: OAuthState(state) in redis' ==>
          OAuthState(state) in redis && redis'[OAuthState(state)] == redis[OAuthState(state)])
  }

  lemma TokenStepsFrame(w: World, step: Step)
    requires TokenStep(step)
    ensures
      var w' := Next(w, step);
      && w'.links == w.links && w'.usedStates == w.usedStates && w'.settings == w.settings
      && w.now <= w'.now && w.issued <= w'.issued && w.usedIds <= w'.usedIds && StatesKept(w.redis, w'.redis)
  {
    if MarkingStep(step) {
      MarkingStepsFrame(w, step);
    } else {
      IssuingStepsFrame(w, step);
    }
  }

  ghost predicate OnlyIssues(w: World, w': World) {
    && w'.now == w.now && w'.settings == w.settings && w'.usedStates == w.usedStates && w'.redis == w.redis
    && w.issued <= w'.issued && w.usedIds <= w'.usedIds && SignInTokensOnly(w.issued, w'.issued)
  }

  ghost predicate SignInTokensOnly(issued: set<Token>, issued': set<Token>) {
    forall token :: token in issued' && token !in issued ==> token.kind == AccessToken || token.kind == RefreshToken
  }

  lemma LinkingFrame(w: World, userId: int, provider: string, identity: Identity, drawn: Drawn)
    ensures OnlyIssues(w, CompleteLinking(w, userId, provider, identity, drawn).0)
  {
  }

  lemma LoginFrame(w: World, provider: string, identity: Identity, drawn: Drawn)
    ensures OnlyIssues(w, CompleteLogin(w, provider, identity, drawn).0)
  {
  }

  lemma CallbackFrame(w: World, provider: string, state: string, identity: Option<Identity>, drawn: Drawn)
    ensures
      var w' := OAuthCallback(w, provider, state, identity, drawn).0;
      w' == w || OnlyIssues(w.(redis := w.redis - {OAuthState(state)}), w')
  {
    var consumed := w.(redis := w.redis - {OAuthState(state)});
    if Live(w.redis, OAuthState(state), w.now) && identity.Some? {
      match LinkingUser(w.redis[OAuthState(state)].value)
      case Some(userId) => LinkingFrame(consumed, userId, provider, identity.value, drawn);
      case None => LoginFrame(consumed, provider, identity.value, drawn);
    }
  }

  lemma StepGrows(w: World, step: Step)
    ensures Grows(w, Next(w, step))
  {
    if TouchesRowsOnly(step) {
      RowStepsFrame(w, step);
    } else if TokenStep(step) {
      TokenStepsFrame(w, step);
    } else {
      match step
      case Callback(provider, state, identity, drawn) => CallbackFrame(w, provider, state, identity, drawn);
      case StartLogin(_, _) =>
      case StartLink(_, _, _) =>
    }
  }

  lemma {:induction false} RunGrows(worlds: seq<World>, steps: seq<Step>, i: nat, j: nat)
    requires IsRun(worlds, steps) && i <= j < |worlds|
    ensures Grows(worlds[i], worlds[j])
  {
    if i < j {
      RunGrows(worlds, steps, i, j - 1);
      assert worlds[j - 1 + 1] == Next(worlds[j - 1], steps[j - 1]);
      StepGrows(worlds[j - 1], steps[j - 1]);
    }
  }

  /** A mark on a token is alive at every instant up to one second before the token's expiry. */
  lemma MarkIsAlive(w: World, token: Token, key: Key)
    requires Inv(w) && token in w.issued && key in w.redis && w.now <= token.exp - SECOND
    requires key == BlacklistedToken(token.jti) || key == UsedToken(token.jti)
    ensures Live(w.redis, key, w.now)
  {
  }

  // ---------- logout ----------

  /** The token a step presents for `get_current_user`. */
  function Presented(step: Step): Option<Token> {
    match step
    case UpdateEmail(access, _) => Some(access)
    case ChangePassword(access, _, _) => Some(access)
    case Deactivate(access) => Some(access)
    case AdminUpdate(access, _, _, _) => Some(access)
    case AdminDeactivate(access, _) => Some(access)
    case AdminAssign(access, _, _) => Some(access)
    case AdminRevoke(access, _, _) => Some(access)
    case StartLink(access, _, _) => Some(access)
    case Unlink(access, _, _) => Some(access)
    case _ => None
  }

  lemma RefusedCallerChangesNothing(w: World, step: Step)
    requires Presented(step).Some? && CurrentUser(w, Presented(step).value).Err?
    ensures Apply(w, step) == (w, Refused(CurrentUser(w, Presented(step).value).error))
  {
  }

  /** What a successful logout leaves in Redis, if the token has a second or more to live. */
  lemma LogoutMarks(w: World, access: Token, refresh: Option<Token>)
    requires Logout(w, access, refresh).1 == Done
    ensures access.exp - w.now >= SECOND ==> BlacklistedToken(access.jti) in Logout(w, access, refresh).0.redis
    ensures refresh.Some? && Decodes(w, refresh.value, RefreshToken) && refresh.value.exp - w.now >= SECOND ==>
              BlacklistedToken(refresh.value.jti) in Logout(w, access, refresh).0.redis
  {
  }

  lemma BlacklistedLater(worlds: seq<World>, steps: seq<Step>, i: nat, j: nat, token: Token)
    requires IsRun(worlds, steps) && i <= j < |worlds|
    requires token in worlds[i].issued && BlacklistedToken(token.jti) in worlds[i].redis
    requires worlds[j].now <= token.exp - SECOND
    ensures Blacklisted(worlds[j], token.jti)
  {
    RunGrows(worlds, steps, i, j);
    RunKeepsInv(worlds, steps, j);
    MarkIsAlive(worlds[j], token, BlacklistedToken(token.jti));
  }

  /**
   * After a successful logout the access token is refused over HTTP and over WebSockets, in every later state of
   * every run, up to one second before it would have expired; a request presenting it changes nothing.
   */
  lemma LogoutRevokesAccess(worlds: seq<World>, steps: seq<Step>, i: nat, j: nat, step: Step)
    requires IsRun(worlds, steps) && i < |steps| && i < j < |worlds|
    requires steps[i].LogOut? && Apply(worlds[i], steps[i]).1 == Done
    requires worlds[j].now <= steps[i].access.exp - SECOND
    ensures CurrentUser(worlds[j], steps[i].access).Err?
    ensures CurrentUserWs(worlds[j], steps[i].access).None?
    ensures Presented(step) == Some(steps[i].access)
      ==> Next(worlds[j], step) == worlds[j] && Apply(worlds[j], step).1.Refused?
  {
    var access := steps[i].access;
    assert worlds[i + 1] == Next(worlds[i], steps[i]);
    LogoutMarks(worlds[i], access, steps[i].alsoRefresh);
    RunGrows(worlds, steps, i, j);
    BlacklistedLater(worlds, steps, i + 1, j, access);
    if Presented(step) == Some(access) {
      RefusedCallerChangesNothing(worlds[j], step);
    }
  }

  /** So is the refresh token, if the logout named a valid one. */
  lemma LogoutRevokesRefresh(worlds: seq<World>, steps: seq<Step>, i: nat, j: nat, jti: string)
    requires IsRun(worlds, steps) && i < |steps| && i < j < |worlds|
    requires steps[i].LogOut? && Apply(worlds[i], steps[i]).1 == Done
    requires steps[i].alsoRefresh.Some? && Decodes(worlds[i], steps[i].alsoRefresh.value, RefreshToken)
    requires worlds[j].now <= steps[i].alsoRefresh.value.exp - SECOND
    ensures RefreshAccessToken(worlds[j], steps[i].alsoRefresh.value, jti) == (worlds[j], Refused(InvalidRefreshToken))
  {
    var refresh := steps[i].alsoRefresh.value;
    assert worlds[i + 1] == Next(worlds[i], steps[i]);
    LogoutMarks(worlds[i], steps[i].access, steps[i].alsoRefresh);
    RunGrows(worlds, steps, i, j);
    BlacklistedLater(worlds, steps, i + 1, j, refresh);
  }

  /** The same state some time later. */
  ghost function Later(w: World, micros: nat): (w': World)
    ensures w' == w.(now := w.now + micros)
  {
    Next(w, Tick(micros))
  }

  ghost predicate RefusedFromNowOn(w: World, access: Token) {
    forall micros: nat :: CurrentUser(Later(w, micros), access).Err?
  }

  /** The lifetime left when a mark is written is a whole number of seconds, at least one, but for the grace. */
  predicate CoversGrace(left: int, grace: int) {
    left >= SECOND && left % SECOND + grace <= 0
  }

  /**
   * An accepted token is refused right after its logout if and only if it had a second left, and at every later
   * instant if and only if what it had left was a whole number of seconds (with no grace).
   */
  lemma LogoutEffectiveIff(w: World, access: Token)
    requires CurrentUser(w, access).Ok?
    ensures Logout(w, access, None).1 == Done
    ensures CurrentUser(Logout(w, access, None).0, access).Err? <==> access.exp - w.now >= SECOND
    ensures RefusedFromNowOn(Logout(w, access, None).0, access) <==> CoversGrace(access.exp - w.now, w.settings.grace)
  {
    var w' := Logout(w, access, None).0;
    if access.exp - w.now >= SECOND {
      var ttl := RemainingTtlSeconds(access.exp, w.now);
      assert w'.redis[BlacklistedToken(access.jti)].deadline == w.now + ttl * SECOND;
      assert access.exp - w.now == ttl * SECOND + (access.exp - w.now) % SECOND;
      assert !Blacklisted(Later(w', ttl * SECOND), access.jti);
    } else {
      assert w' == w;
      assert CurrentUser(Later(w', 0), access).Ok?;
    }
  }

  // ---------- single-use tokens ----------

  lemma UsedLater(worlds: seq<World>, steps: seq<Step>, i: nat, j: nat, token: Token)
    requires IsRun(worlds, steps) && i <= j < |worlds|
    requires token in worlds[i].issued && UsedToken(token.jti) in worlds[i].redis
    requires worlds[j].now <= token.exp - SECOND
    ensures TokenUsed(worlds[j], token.jti)
  {
    RunGrows(worlds, steps, i, j);
    RunKeepsInv(worlds, steps, j);
    MarkIsAlive(worlds[j], token, UsedToken(token.jti));
  }

  /** A step that spends a token: a reset, or a verification that turned `is_verified` on. */
  ghost predicate Spends(w: World, step: Step, token: Token) {
    && (step.Reset? || step.Verification?) && step.token == token
    && Apply(w, step).1 == Done
  }

  /**
   * One reset token sets a password at most once and one verification token verifies at most once, whatever
   * happens in between; a second time is possible only within the token's last second or its grace.
   */
  lemma TokenSpentOnce(worlds: seq<World>, steps: seq<Step>, i: nat, j: nat, token: Token)
    requires IsRun(worlds, steps) && i < j < |steps|
    requires Spends(worlds[i], steps[i], token) && Spends(worlds[j], steps[j], token)
    ensures worlds[j].now > token.exp - SECOND
  {
    if worlds[j].now <= token.exp - SECOND {
      RunGrows(worlds, steps, i, j);
      assert worlds[i + 1] == Next(worlds[i], steps[i]);
      assert UsedToken(token.jti) in worlds[i + 1].redis;
      RunGrows(worlds, steps, i, i + 1);
      UsedLater(worlds, steps, i + 1, j, token);
      assert false;
    }
  }

  ghost predicate ResetRefusedFromNowOn(w: World, token: Token, password: string) {
    forall micros: nat :: ResetPassword(Later(w, micros), token, password).1.Refused?
  }

  /**
   * Right after a reset, another one with the same token works if and only if less than a second was left, and it is
   * refused at every later instant if and only if what was left was a whole number of seconds (with no grace).
   */
  lemma ResetAgainIff(w: World, token: Token, password: string, another: string)
    requires ResetPassword(w, token, password).1 == Done && another != password
    ensures ResetPassword(ResetPassword(w, token, password).0, token, another).1 == Done <==> token.exp - w.now < SECOND
    ensures ResetRefusedFromNowOn(ResetPassword(w, token, password).0, token, another)
      <==> CoversGrace(token.exp - w.now, w.settings.grace)
  {
    var w' := ResetPassword(w, token, password).0;
    if token.exp - w.now < SECOND {
      assert w'.redis == w.redis;
      assert ResetPassword(Later(w', 0), token, another).1 == Done;
    } else {
      var ttl := RemainingTtlSeconds(token.exp, w.now);
      assert w'.redis[UsedToken(token.jti)].deadline == w.now + ttl * SECOND;
      assert token.exp - w.now == ttl * SECOND + (token.exp - w.now) % SECOND;
      assert !TokenUsed(Later(w', ttl * SECOND), token.jti);
      assert ResetPassword(Later(w', ttl * SECOND), token, another).1 == Done
        || !Decodes(Later(w', ttl * SECOND), token, PasswordReset);
    }
  }

  // ---------- subjects ----------

  /** Verification and reset tokens carry the decimal text of a user id the server has drawn. */
  ghost predicate SubjectsInv(w: World) {
    forall token :: token in w.issued && (token.kind == EmailVerification || token.kind == PasswordReset) ==>
      SubjectOfUser(token.subject, w.usedIds)
  }

  ghost predicate SubjectOfUser(subject: string, ids: set<int>) {
    exists id :: id in ids && subject == Decimal.IntText(id)
  }

  lemma SubjectsStep(w: World, step: Step)
    requires SubjectsInv(w) && UsersInv(w)
    ensures SubjectsInv(Next(w, step))
  {
    var w' := Next(w, step);
    StepGrows(w, step);
    forall token | token in w'.issued && (token.kind == EmailVerification || token.kind == PasswordReset)
      ensures SubjectOfUser(token.subject, w'.usedIds)
    {
      if token in w.issued {
        var id :| id in w.usedIds && token.subject == Decimal.IntText(id);
        assert id in w'.usedIds;
      } else {
        NewSubject(w, step, token);
      }
    }
  }

  lemma NewSubject(w: World, step: Step, token: Token)
    requires UsersInv(w) && token in Next(w, step).issued && token !in w.issued
    requires token.kind == EmailVerification || token.kind == PasswordReset
    ensures SubjectOfUser(token.subject, Next(w, step).usedIds)
  {
    if TouchesRowsOnly(step) {
      RowStepsFrame(w, step);
    } else if MarkingStep(step) {
      MarkingStepsFrame(w, step);
    } else if step.Callback? {
      CallbackFrame(w, step.provider, step.state, step.identity, step.drawn);
    } else if step.Register? {
      assert step.id in Next(w, step).usedIds && token.subject == Decimal.IntText(step.id);
    } else if step.Forgot? {
      var id := UserByEmail(w.users, Lower(step.email)).value;
      assert id in w.usedIds && token.subject == Decimal.IntText(id);
    }
  }

  lemma {:induction false} RunKeepsSubjects(worlds: seq<World>, steps: seq<Step>, i: nat)
    requires IsRun(worlds, steps) && i < |worlds|
    ensures SubjectsInv(worlds[i])
  {
    if i > 0 {
      RunKeepsSubjects(worlds, steps, i - 1);
      RunKeepsInv(worlds, steps, i - 1);
      assert worlds[i - 1 + 1] == Next(worlds[i - 1], steps[i - 1]);
      SubjectsStep(worlds[i - 1], steps[i - 1]);
    }
  }

  /** `int(claims.subject)` never fails: the subject of such a token is the id it was issued for. */
  lemma SubjectsParse(worlds: seq<World>, steps: seq<Step>, i: nat, token: Token, kind: TokenType)
    requires IsRun(worlds, steps) && i < |worlds|
    requires (kind == EmailVerification || kind == PasswordReset) && Decodes(worlds[i], token, kind)
    ensures exists id :: id in worlds[i].usedIds && token.subject == Decimal.IntText(id)
                         && Decimal.ParseInt(token.subject) == Some(id)
  {
    RunKeepsSubjects(worlds, steps, i);
    var id :| id in worlds[i].usedIds && token.subject == Decimal.IntText(id);
    Decimal.ParseIntText(id);
  }
}
