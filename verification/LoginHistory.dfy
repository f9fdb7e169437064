// How a session came to hold a user: what the past requests of a run must contain.
module LoginHistory {
  import opened Text
  import opened Sessions
  import opened Accounts
  import opened Runs

  /** The request is a login as user `uid` whose password was checked and right. */
  predicate PasswordChecked(k: Crypto, w: World, r: Request, uid: nat) {
    && r.action.Login?
    && var found := FindByUsername(w.users, r.action.username);
       found.Some? && found.value.id == uid && k.verifyPassword(found.value.passwordHash, r.action.password)
  }

  /** ... at a moment when the account had no second factor. */
  predicate DirectLogin(k: Crypto, w: World, r: Request, uid: nat) {
    PasswordChecked(k, w, r, uid) && !FindByUsername(w.users, r.action.username).value.totpEnabled
  }

  predicate ChallengeLogin(k: Crypto, w: World, r: Request, uid: nat) {
    PasswordChecked(k, w, r, uid) && FindByUsername(w.users, r.action.username).value.totpEnabled
  }

  /** The request answers its session's challenge for `uid` with a token that was checked
      against the secret stored for `uid` at that moment. */
  predicate TokenChecked(k: Crypto, w: World, r: Request, uid: nat) {
    && r.action.VerifyTwoFactor?
    && PendingOf(w, r.call) == Some(uid)
    && var u := FindById(w.users, uid);
       u.Some? && u.value.totpSecret.Some? && u.value.totpSecret.value != ""
       && k.verifyToken(r.action.token, u.value.totpSecret.value, r.call.now)
  }

  function PendingOf(w: World, c: Call): Option<nat> {
    match Get(Fields(w, c), KPending2fa)
    case Some(p) => Some(p.userId)
    case None => None
  }

  function PendingIn(t: Table, sid: nat): Option<nat>
    requires sid in t
  {
    match Get(t[sid].fields, KPending2fa)
    case Some(p) => Some(p.userId)
    case None => None
  }

  function UserIn(t: Table, sid: nat): Option<nat>
    requires sid in t
  {
    match UserOf(t[sid])
    case Some(su) => Some(su.id)
    case None => None
  }

  // ----- One step ------------------------------------------------------------

  /** The user of session `sid` was there before, or this request put it there. */
  predicate UserOrigin(k: Crypto, w: World, r: Request, w': World, sid: nat, uid: nat) {
    sid in w'.sessions && UserIn(w'.sessions, sid) == Some(uid) ==>
      || (sid in w.sessions && UserIn(w.sessions, sid) == Some(uid))
      || (sid == NewSid(w) && (DirectLogin(k, w, r, uid) || TokenChecked(k, w, r, uid)))
  }

  /** The challenge of session `sid` was there before, or this request put it there. */
  predicate PendingOrigin(k: Crypto, w: World, r: Request, w': World, sid: nat, uid: nat) {
    sid in w'.sessions && PendingIn(w'.sessions, sid) == Some(uid) ==>
      || (sid in w.sessions && PendingIn(w.sessions, sid) == Some(uid))
      || (sid == Sid(w, r.call) && ChallengeLogin(k, w, r, uid))
  }

  /** A change that leaves users and challenges in sessions as they were. */
  ghost predicate Quiet(t: Table, t': Table) {
    forall sid :: sid in t' ==>
      && (UserIn(t', sid).Some? ==> sid in t && UserIn(t, sid) == UserIn(t', sid))
      && (PendingIn(t', sid).Some? ==> sid in t && PendingIn(t, sid) == PendingIn(t', sid))
  }

  lemma SaveIsQuiet(w: World, c: Call, fields: seq<Field>)
    requires Get(fields, KUser) == Get(Fields(w, c), KUser)
    requires Get(fields, KPending2fa) == Get(Fields(w, c), KPending2fa)
    ensures Quiet(w.sessions, Save(w, c, fields).sessions)
  {
  }

  lemma SameIsQuiet(t: Table)
    ensures Quiet(t, t)
  {
  }

  lemma FewerIsQuiet(t: Table, t': Table)
    requires forall sid :: sid in t' ==> sid in t && t'[sid] == t[sid]
    ensures Quiet(t, t')
  {
  }

  lemma SetupSessions(w: World, c: Call, secret: string)
    ensures var t := StepSetupTwoFactor(w, c, secret).world.sessions;
            t == w.sessions || t == Save(w, c, Put(Fields(w, c), PendingTotp(secret))).sessions
  {
  }

  lemma SetupQuiet(w: World, c: Call, secret: string)
    ensures Quiet(w.sessions, StepSetupTwoFactor(w, c, secret).world.sessions)
  {
    SetupSessions(w, c, secret);
    SaveIsQuiet(w, c, Put(Fields(w, c), PendingTotp(secret)));
    SameIsQuiet(w.sessions);
  }

  lemma EnableSessions(k: Crypto, w: World, c: Call, token: string)
    ensures var t := StepEnableTwoFactor(k, w, c, token).world.sessions;
            t == w.sessions || t == Save(w, c, Drop(Fields(w, c), KPendingTotp)).sessions
  {
  }

  lemma EnableQuiet(k: Crypto, w: World, c: Call, token: string)
    ensures Quiet(w.sessions, StepEnableTwoFactor(k, w, c, token).world.sessions)
  {
    EnableSessions(k, w, c, token);
    SaveIsQuiet(w, c, Drop(Fields(w, c), KPendingTotp));
    SameIsQuiet(w.sessions);
  }

  lemma IssueQuiet(w: World, c: Call, csrf: string)
    ensures Quiet(w.sessions, StepIssueCsrfToken(w, c, csrf).world.sessions)
  {
    var fields := Put(Fields(w, c), CsrfSecret(csrf));
    SaveIsQuiet(w, c, fields);
    SameIsQuiet(w.sessions);
    var t := StepIssueCsrfToken(w, c, csrf).world.sessions;
    assert t == w.sessions || t == Save(w, c, fields).sessions;
  }

  lemma RemoveQuiet(w: World, c: Call, id: nat)
    ensures Quiet(w.sessions, StepRemoveUser(w, c, id).world.sessions)
  {
    SameIsQuiet(w.sessions);
    FewerIsQuiet(w.sessions, Revoke(w.sessions, id));
    var t := StepRemoveUser(w, c, id).world.sessions;
    assert t == w.sessions || t == Revoke(w.sessions, id);
  }

  /** Changes to users other than removal do not touch the session store. */
  lemma SessionsUntouched(k: Crypto, w: World, r: Request)
    requires r.action.DisableTwoFactor? || r.action.ChangePassword? || r.action.CreateUser?
    ensures Step(k, w, r).world.sessions == w.sessions
  {
  }

  /** Every action but the two sign-in steps is quiet. */
  lemma OtherStepsQuiet(k: Crypto, w: World, r: Request)
    requires !r.action.Login? && !r.action.VerifyTwoFactor?
    ensures Quiet(w.sessions, Step(k, w, r).world.sessions)
  {
    match r.action
    case SetupTwoFactor(secret) => SetupQuiet(w, r.call, secret);
    case EnableTwoFactor(token) => EnableQuiet(k, w, r.call, token);
    case IssueCsrfToken(csrf) => IssueQuiet(w, r.call, csrf);
    case RemoveUser(id) => RemoveQuiet(w, r.call, id);
    case Logout => FewerIsQuiet(w.sessions, w.sessions - {Sid(w, r.call)});
    case ExpireSession(sid) => FewerIsQuiet(w.sessions, w.sessions - {sid});
    case _ =>
      SessionsUntouched(k, w, r);
      SameIsQuiet(w.sessions);
  }

  lemma EstablishOrigins(w: World, c: Call, u: UserRow, sid: nat)
    requires sid in Establish(w, c, u).sessions
    ensures var w' := Establish(w, c, u);
      if sid == NewSid(w) then UserIn(w'.sessions, sid) == Some(u.id) && PendingIn(w'.sessions, sid).None?
      else sid in w.sessions && w'.sessions[sid] == w.sessions[sid]
  {
    var fs := [User(SessionUserOf(u))];
    assert Get(fs, KPending2fa) == Get(fs[1..], KPending2fa) == None;
  }

  lemma SignInOrigins(k: Crypto, w: World, r: Request, sid: nat, uid: nat)
    requires r.action.Login? || r.action.VerifyTwoFactor?
    ensures UserOrigin(k, w, r, Step(k, w, r).world, sid, uid)
    ensures PendingOrigin(k, w, r, Step(k, w, r).world, sid, uid)
  {
    var c := r.call;
    match r.action
    case Login(username, password) =>
      var found := FindByUsername(w.users, username);
      if found.Some? && sid in Establish(w, c, found.value).sessions {
        EstablishOrigins(w, c, found.value, sid);
      }
    case VerifyTwoFactor(token) =>
      var p := Get(Fields(w, c), KPending2fa);
      if p.Some? && FindById(w.users, p.value.userId).Some? {
        var u := FindById(w.users, p.value.userId).value;
        if sid in Establish(w, c, u).sessions {
          EstablishOrigins(w, c, u, sid);
        }
      }
  }

  lemma StepOrigins(k: Crypto, w: World, r: Request, sid: nat, uid: nat)
    ensures UserOrigin(k, w, r, Next(k)(w, r), sid, uid)
    ensures PendingOrigin(k, w, r, Next(k)(w, r), sid, uid)
  {
    if r.action.Login? || r.action.VerifyTwoFactor? {
      SignInOrigins(k, w, r, sid, uid);
    } else {
      OtherStepsQuiet(k, w, r);
    }
  }

  // ----- Whole runs ----------------------------------------------------------

  /** Some earlier request of the run put a challenge for `uid` on session `sid`. */
  ghost predicate Challenged(k: Crypto, step: (World, Request) -> World, w0: World, rs: seq<Request>, n: nat,
                             sid: nat, uid: nat)
    requires n <= |rs|
  {
    exists i :: 0 <= i < n
      && ChallengeLogin(k, After(step, w0, rs, i), rs[i], uid) && Sid(After(step, w0, rs, i), rs[i].call) == sid
  }

  /** Session id `sid` was handed out for `uid` by a password login while the account had
      no second factor, or by a token checked against the stored secret on a session that
      had itself passed the password step for `uid` before. */
  ghost predicate Justified(k: Crypto, step: (World, Request) -> World, w0: World, rs: seq<Request>, n: nat,
                            sid: nat, uid: nat)
    requires n <= |rs|
  {
    exists j :: 0 <= j < n && NewSid(After(step, w0, rs, j)) == sid &&
      (DirectLogin(k, After(step, w0, rs, j), rs[j], uid)
       || (TokenChecked(k, After(step, w0, rs, j), rs[j], uid)
           && Challenged(k, step, w0, rs, j, Sid(After(step, w0, rs, j), rs[j].call), uid)))
  }

  /** `step` puts users and challenges into sessions only at sign-in. */
  ghost predicate OnlySignInGrants(k: Crypto, step: (World, Request) -> World) {
    forall w, r, sid, uid ::
      UserOrigin(k, w, r, step(w, r), sid, uid) && PendingOrigin(k, w, r, step(w, r), sid, uid)
  }

  lemma {:induction false} UsersJustified(k: Crypto, step: (World, Request) -> World, w0: World, rs: seq<Request>,
                                      n: nat, sid: nat, uid: nat)
    requires OnlySignInGrants(k, step)
    requires n <= |rs| && w0.sessions == map[]
    requires sid in After(step, w0, rs, n).sessions && UserIn(After(step, w0, rs, n).sessions, sid) == Some(uid)
    ensures Justified(k, step, w0, rs, n, sid, uid)
  {
    assert n > 0;
    var w, r := After(step, w0, rs, n - 1), rs[n - 1];
    assert UserOrigin(k, w, r, step(w, r), sid, uid);
    if sid in w.sessions && UserIn(w.sessions, sid) == Some(uid) {
      UsersJustified(k, step, w0, rs, n - 1, sid, uid);
    } else if TokenChecked(k, w, r, uid) {
      ChallengesJustified(k, step, w0, rs, n - 1, Sid(w, r.call), uid);
    }
  }

  lemma {:induction false} ChallengesJustified(k: Crypto, step: (World, Request) -> World, w0: World, rs: seq<Request>,
                                           n: nat, sid: nat, uid: nat)
    requires OnlySignInGrants(k, step)
    requires n <= |rs| && w0.sessions == map[]
    requires sid in After(step, w0, rs, n).sessions && PendingIn(After(step, w0, rs, n).sessions, sid) == Some(uid)
    ensures Challenged(k, step, w0, rs, n, sid, uid)
  {
    assert n > 0;
    var w, r := After(step, w0, rs, n - 1), rs[n - 1];
    assert PendingOrigin(k, w, r, step(w, r), sid, uid);
    if sid in w.sessions && PendingIn(w.sessions, sid) == Some(uid) {
      ChallengesJustified(k, step, w0, rs, n - 1, sid, uid);
    }
  }

  /** Over any run, however long: a session holds a user only with that justification. */
  lemma SessionsAreJustified(k: Crypto, w0: World, rs: seq<Request>, n: nat, sid: nat, uid: nat)
    requires n <= |rs| && w0.sessions == map[]
    requires sid in At(k, w0, rs, n).sessions && UserIn(At(k, w0, rs, n).sessions, sid) == Some(uid)
    ensures Justified(k, Next(k), w0, rs, n, sid, uid)
  {
    forall w, r, sid, uid
      ensures UserOrigin(k, w, r, Next(k)(w, r), sid, uid) && PendingOrigin(k, w, r, Next(k)(w, r), sid, uid)
    {
      StepOrigins(k, w, r, sid, uid);
    }
    UsersJustified(k, Next(k), w0, rs, n, sid, uid);
  }

  // ----- Sign-in completes ----------------------------------------------------

  /** The session is `uid`'s under a fresh id, without challenge and without CSRF secret, the
      one used before is gone, and every other session is as it was. */
  ghost predicate SignedIn(w: World, c: Call, t: Table, uid: nat) {
    && NewSid(w) !in w.sessions && NewSid(w) in t && UserIn(t, NewSid(w)) == Some(uid)
    && PendingIn(t, NewSid(w)).None? && Get(t[NewSid(w)].fields, KCsrf).None? && Sid(w, c) !in t
    && forall sid :: sid != NewSid(w) && sid != Sid(w, c) ==>
         (sid in t <==> sid in w.sessions) && (sid in t ==> t[sid] == w.sessions[sid])
  }

  lemma EstablishDropsCsrf(w: World, c: Call, u: UserRow)
    ensures Get(Establish(w, c, u).sessions[NewSid(w)].fields, KCsrf).None?
  {
    var fs := [User(SessionUserOf(u))];
    assert Get(fs, KCsrf) == Get(fs[1..], KCsrf) == None;
  }

  lemma EstablishSignsIn(w: World, c: Call, u: UserRow)
    requires Inv(w)
    ensures SignedIn(w, c, Establish(w, c, u).sessions, u.id)
  {
    EstablishOrigins(w, c, u, NewSid(w));
    EstablishDropsCsrf(w, c, u);
    assert NewSid(w) !in w.sessions;
  }

  lemma DirectLoginAnswer(k: Crypto, w: World, r: Request, uid: nat)
    requires Inv(w) && DirectLogin(k, w, r, uid)
    ensures var o := StepLogin(k, w, r.call, r.action.username, r.action.password);
      o.reply == Done && SignedIn(w, r.call, o.world.sessions, uid)
  {
    EstablishSignsIn(w, r.call, FindByUsername(w.users, r.action.username).value);
  }

  lemma ChallengeAnswer(k: Crypto, w: World, r: Request, uid: nat)
    requires ChallengeLogin(k, w, r, uid)
    ensures var o := StepLogin(k, w, r.call, r.action.username, r.action.password);
      o.reply == TwoFactorRequired && PendingOf(o.world, r.call.(sid := Sid(w, r.call))) == Some(uid)
  {
  }

  lemma RefusedLogin(k: Crypto, w: World, r: Request)
    requires r.action.Login? && forall u :: !PasswordChecked(k, w, r, u)
    ensures var o := StepLogin(k, w, r.call, r.action.username, r.action.password);
      o.reply == Unauthorized && o.world.sessions == w.sessions
  {
    var found := FindByUsername(w.users, r.action.username);
    if found.Some? {
      assert !PasswordChecked(k, w, r, found.value.id);
    }
  }

  /** What a login request is answered: success exactly for a right password of an account
      without second factor, a challenge exactly for one with it, and otherwise a refusal
      that leaves every session alone. */
  lemma LoginAnswers(k: Crypto, w: World, r: Request, uid: nat)
    requires Inv(w) && r.action.Login?
    ensures var o := Step(k, w, r);
      && (DirectLogin(k, w, r, uid) ==> o.reply == Done && SignedIn(w, r.call, o.world.sessions, uid))
      && (ChallengeLogin(k, w, r, uid) ==>
            o.reply == TwoFactorRequired && PendingOf(o.world, r.call.(sid := Sid(w, r.call))) == Some(uid))
      && ((forall u :: !PasswordChecked(k, w, r, u)) ==> o.reply == Unauthorized && o.world.sessions == w.sessions)
  {
    if DirectLogin(k, w, r, uid) {
      DirectLoginAnswer(k, w, r, uid);
    }
    if ChallengeLogin(k, w, r, uid) {
      ChallengeAnswer(k, w, r, uid);
    }
    if forall u :: !PasswordChecked(k, w, r, u) {
      RefusedLogin(k, w, r);
    }
  }

  /** What a second-factor request is answered: success exactly for a checked token on the
      session's own challenge, and otherwise a refusal that leaves every session alone. */
  lemma VerifyAnswers(k: Crypto, w: World, r: Request)
    requires Inv(w) && r.action.VerifyTwoFactor?
    ensures var o, uid := Step(k, w, r), PendingOf(w, r.call);
      if uid.Some? && TokenChecked(k, w, r, uid.value)
      then o.reply == Done && SignedIn(w, r.call, o.world.sessions, uid.value)
      else o.reply == Unauthorized && o.world.sessions == w.sessions
  {
    var uid := PendingOf(w, r.call);
    if uid.Some? && FindById(w.users, uid.value).Some? {
      EstablishSignsIn(w, r.call, FindById(w.users, uid.value).value);
    }
  }

  /** Two-step login end to end: after a right password of an account with a second factor,
      a token for its stored secret, sent in the same session, signs the account in. */
  lemma TwoStepLoginCompletes(k: Crypto, w: World, login: Request, verify: Request, uid: nat)
    requires Inv(w) && ChallengeLogin(k, w, login, uid)
    requires verify.action.VerifyTwoFactor? && verify.call.sid == Sid(w, login.call)
    requires var u := FindByUsername(w.users, login.action.username).value;
      k.verifyToken(verify.action.token, u.totpSecret.value, verify.call.now)
    ensures var w1 := Next(k)(w, login);
      Step(k, w1, verify).reply == Done && SignedIn(w1, verify.call, Next(k)(w1, verify).sessions, uid)
  {
    var w1, u := Next(k)(w, login), FindByUsername(w.users, login.action.username).value;
    StepInv(k, w, login);
    LoginAnswers(k, w, login, uid);
    LoginKeepsUsers(k, w, login);
    assert UserOk(u, w.nextUserId);
    assert FindById(w.users, uid) == Some(u);
    SamePending(w1, login.call.(sid := Sid(w, login.call)), verify.call);
    VerifyAnswers(k, w1, verify);
  }

  lemma LoginKeepsUsers(k: Crypto, w: World, r: Request)
    requires r.action.Login?
    ensures Next(k)(w, r).users == w.users
  {
  }

  lemma SamePending(w: World, c: Call, d: Call)
    requires c.sid == d.sid
    ensures PendingOf(w, c) == PendingOf(w, d)
  {
  }

  // ----- Removed accounts ----------------------------------------------------

  ghost predicate Absent(w: World, id: nat) {
    id < w.nextUserId && forall u :: u in w.users ==> u.id != id
  }

  lemma RewrittenIds(users: seq<UserRow>, was: seq<UserRow>, id: nat)
    requires |users| == |was| && forall i :: 0 <= i < |was| ==> users[i].id == was[i].id
    requires forall u :: u in was ==> u.id != id
    ensures forall u :: u in users ==> u.id != id
  {
    forall u | u in users ensures u.id != id {
      var i :| 0 <= i < |users| && users[i] == u;
      assert was[i] in was;
    }
  }

  /** AUTOINCREMENT: the id of a removed row is never given out again. */
  lemma AbsentStays(k: Crypto, w: World, r: Request, id: nat)
    requires Absent(w, id)
    ensures Absent(Next(k)(w, r), id)
  {
    match r.action
    case EnableTwoFactor(token) =>
      var su, p := CurrentUser(w, r.call), Get(Fields(w, r.call), KPendingTotp);
      if su.Some? && p.Some? {
        RewrittenIds(SetTotp(w.users, su.value.id, Some(p.value.secret), true), w.users, id);
      }
    case DisableTwoFactor(password) =>
      var su := CurrentUser(w, r.call);
      if su.Some? {
        RewrittenIds(SetTotp(w.users, su.value.id, None, false), w.users, id);
      }
    case ChangePassword(current, newHash) =>
      var su := CurrentUser(w, r.call);
      if su.Some? {
        RewrittenIds(UpdatePassword(w.users, su.value.id, newHash), w.users, id);
      }
    case _ =>
  }

  lemma AbsentFrom(step: (World, Request) -> World, w0: World, rs: seq<Request>, n: nat, m: nat, id: nat)
    requires forall w, r :: Absent(w, id) ==> Absent(step(w, r), id)
    requires n < m <= |rs| && Absent(step(After(step, w0, rs, n), rs[n]), id)
    ensures Absent(After(step, w0, rs, m), id)
  {
    assert After(step, w0, rs, n + 1) == step(After(step, w0, rs, n), rs[n]);
    KeepsFrom(step, w => Absent(w, id), w0, rs, n + 1, m);
  }

  /** Once a removal has been answered with success, at every later point of the run the
      user has no row and no session, and a challenge left over for it is refused. */
  lemma RemovalIsFinal(k: Crypto, username: string, hash: string, rs: seq<Request>, n: nat, m: nat, id: nat)
    requires n < m <= |rs| && rs[n].action == RemoveUser(id)
    requires StepRemoveUser(At(k, Initial(username, hash), rs, n), rs[n].call, id).reply == Done
    ensures var w := At(k, Initial(username, hash), rs, m);
      && FindById(w.users, id).None?
      && (forall sid :: sid in w.sessions ==> UserIn(w.sessions, sid) != Some(id))
      && forall c, token :: PendingOf(w, c) == Some(id) ==> StepVerifyTwoFactor(k, w, c, token).reply == Unauthorized
  {
    InitialInv(username, hash);
    AbsentAfterRemoval(k, Initial(username, hash), rs, n, m, id);
    RunInv(k, Initial(username, hash), rs, m);
    AbsentMeansOut(k, At(k, Initial(username, hash), rs, m), id);
  }

  lemma AbsentAfterRemoval(k: Crypto, w0: World, rs: seq<Request>, n: nat, m: nat, id: nat)
    requires Inv(w0) && n < m <= |rs| && rs[n].action == RemoveUser(id)
    requires StepRemoveUser(At(k, w0, rs, n), rs[n].call, id).reply == Done
    ensures Absent(At(k, w0, rs, m), id)
  {
    RunInv(k, w0, rs, n);
    RemovedIsAbsent(k, At(k, w0, rs, n), rs[n], id);
    forall w, r | Absent(w, id) ensures Absent(Next(k)(w, r), id) {
      AbsentStays(k, w, r, id);
    }
    AbsentFrom(Next(k), w0, rs, n, m, id);
  }

  lemma AbsentMeansOut(k: Crypto, w: World, id: nat)
    requires Inv(w) && Absent(w, id)
    ensures FindById(w.users, id).None?
    ensures forall sid :: sid in w.sessions ==> UserIn(w.sessions, sid) != Some(id)
    ensures forall c, token :: PendingOf(w, c) == Some(id) ==> StepVerifyTwoFactor(k, w, c, token).reply == Unauthorized
  {
    forall sid | sid in w.sessions ensures UserIn(w.sessions, sid) != Some(id) {
      assert SessionOk(w.users, w.nextUserId, w.sessions[sid]);
    }
  }

  lemma RemovedIsAbsent(k: Crypto, w: World, r: Request, id: nat)
    requires Inv(w) && r.action == RemoveUser(id) && StepRemoveUser(w, r.call, id).reply == Done
    ensures Absent(Next(k)(w, r), id)
  {
    var target := FindById(w.users, id).value;
    assert UserOk(target, w.nextUserId);
    assert Next(k)(w, r).users == Without(w.users, id);
  }
}
