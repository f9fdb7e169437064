// What each handler answers and does to the sessions, and that a session that has ended
// stays ended. LoginHistory says this of the two sign-in steps, CredentialHistory says what
// the handlers do to the users.
module HandlerEffects {
  import opened Text
  import opened Sessions
  import opened Accounts
  import opened LoginHistory
  import opened CredentialHistory
  import opened Runs

  /** Every session but `sid` is as it was. */
  predicate OthersKept(was: Table, t: Table, sid: nat) {
    forall s :: s in was.Keys + t.Keys && s != sid ==> s in was && s in t && t[s] == was[s]
  }

  /** Session `sid` is there, with `f` for its kind and every other property as in `fields`. */
  ghost predicate HasAdded(t: Table, sid: nat, fields: seq<Field>, f: Field) {
    && sid in t && Get(t[sid].fields, KindOf(f)) == Some(f)
    && forall k :: k != KindOf(f) ==> Get(t[sid].fields, k) == Get(fields, k)
  }

  ghost predicate HasDropped(t: Table, sid: nat, fields: seq<Field>, kind: Kind) {
    && sid in t && Get(t[sid].fields, kind) == None
    && forall k :: k != kind ==> Get(t[sid].fields, k) == Get(fields, k)
  }

  function RowOf(w: World, c: Call): Option<UserRow> {
    match CurrentUser(w, c)
    case Some(su) => FindById(w.users, su.id)
    case None => None
  }

  lemma SaveAdds(w: World, c: Call, f: Field)
    ensures HasAdded(Save(w, c, Put(Fields(w, c), f)).sessions, Sid(w, c), Fields(w, c), f)
    ensures OthersKept(w.sessions, Save(w, c, Put(Fields(w, c), f)).sessions, Sid(w, c))
  {
  }

  lemma SaveDrops(w: World, c: Call, kind: Kind)
    ensures HasDropped(Save(w, c, Drop(Fields(w, c), kind)).sessions, Sid(w, c), Fields(w, c), kind)
    ensures OthersKept(w.sessions, Save(w, c, Drop(Fields(w, c), kind)).sessions, Sid(w, c))
  {
  }

  /** Logging out destroys the session of the request and touches nothing else. */
  lemma LogoutEndsSession(w: World, c: Call)
    ensures var o := StepLogout(w, c);
      && o.reply == Done && Sid(w, c) !in o.world.sessions
      && OthersKept(w.sessions, o.world.sessions, Sid(w, c)) && o.world.users == w.users
  {
  }

  /** Starting enrolment: refused without an account, refused with 2FA on, and otherwise the
      secret is put into this session and nothing else changes. */
  lemma SetupAnswers(w: World, c: Call, secret: string)
    ensures var o := StepSetupTwoFactor(w, c, secret);
      if RowOf(w, c).None? then o.reply == Unauthorized && o.world.sessions == w.sessions
      else if RowOf(w, c).value.totpEnabled then o.reply == Conflict && o.world.sessions == w.sessions
      else
        && o.reply == Done && HasAdded(o.world.sessions, Sid(w, c), Fields(w, c), PendingTotp(secret))
        && OthersKept(w.sessions, o.world.sessions, Sid(w, c))
  {
    SaveAdds(w, c, PendingTotp(secret));
  }

  /** The enrolment secret this session holds; an empty one counts as none. */
  function Held(w: World, c: Call): Option<string> {
    match Get(Fields(w, c), KPendingTotp)
    case Some(p) => if p.secret == "" then None else Some(p.secret)
    case None => None
  }

  /** Confirming enrolment: the three refusals change no session; success takes the secret out
      of this session. */
  lemma EnableAnswers(k: Crypto, w: World, c: Call, token: string)
    ensures var o := StepEnableTwoFactor(k, w, c, token);
      if CurrentUser(w, c).None? then o.reply == Unauthorized && o.world.sessions == w.sessions
      else if Held(w, c).None? then o.reply == BadRequest && o.world.sessions == w.sessions
      else if !k.verifyToken(token, Held(w, c).value, c.now) then
        o.reply == Unauthorized && o.world.sessions == w.sessions
      else
        && o.reply == Done && HasDropped(o.world.sessions, Sid(w, c), Fields(w, c), KPendingTotp)
        && OthersKept(w.sessions, o.world.sessions, Sid(w, c))
  {
    SaveDrops(w, c, KPendingTotp);
  }

  /** Disabling 2FA asks for the account and its password; no session changes. */
  lemma DisableAnswers(k: Crypto, w: World, c: Call, password: string)
    ensures var o := StepDisableTwoFactor(k, w, c, password);
      && o.world.sessions == w.sessions
      && o.reply == if RowOf(w, c).Some? && k.verifyPassword(RowOf(w, c).value.passwordHash, password)
                    then Done else Unauthorized
  {
  }

  lemma ChangePasswordAnswers(k: Crypto, w: World, c: Call, current: string, newHash: string)
    ensures var o := StepChangePassword(k, w, c, current, newHash);
      && o.world.sessions == w.sessions
      && o.reply ==
           if CurrentUser(w, c).None? then Unauthorized
           else if RowOf(w, c).None? then NotFound
           else if k.verifyPassword(RowOf(w, c).value.passwordHash, current) then Done else Unauthorized
  {
  }

  lemma CreateAnswers(w: World, c: Call, username: string, hash: string, isAdmin: bool)
    ensures var o := StepCreateUser(w, c, username, hash, isAdmin);
      && o.world.sessions == w.sessions
      && o.reply ==
           if CurrentUser(w, c).None? then Unauthorized
           else if !CurrentUser(w, c).value.isAdmin then Forbidden
           else if exists u :: u in w.users && FoldAll(u.username) == FoldAll(username) then Conflict else Done
  {
  }

  /** Removing an account, in any state with the invariant: only an administrator may, not the
      own account, and only an existing one. Success ends exactly the sessions of that
      account; those of all other users, and all anonymous ones, live on unchanged. */
  lemma RemovalAnswers(w: World, c: Call, id: nat)
    requires Inv(w)
    ensures var o := StepRemoveUser(w, c, id);
      && o.reply == (
           if CurrentUser(w, c).None? then Unauthorized
           else if !CurrentUser(w, c).value.isAdmin then Forbidden
           else if CurrentUser(w, c).value.id == id then BadRequest
           else if FindById(w.users, id).None? then NotFound else Done)
      && (o.reply != Done ==> o.world.sessions == w.sessions)
      && (o.reply == Done ==> RemovedSessions(w.sessions, o.world.sessions, id))
  {
    if RequireAdmin(w, c).None? && id != CurrentUser(w, c).value.id {
      CallerIsAnotherAdmin(w, c, id);
      RevokedSessions(w, id);
    }
  }

  predicate RemovedSessions(was: Table, t: Table, id: nat) {
    && (forall sid :: sid in t ==> sid in was && t[sid] == was[sid])
    && (forall sid :: sid in was ==> (sid in t <==> UserIn(was, sid) != Some(id)))
  }

  lemma RevokedSessions(w: World, id: nat)
    requires Inv(w)
    ensures RemovedSessions(w.sessions, Revoke(w.sessions, id), id)
  {
    forall sid | sid in w.sessions ensures Distinct(w.sessions[sid].fields) {
      assert SessionOk(w.users, w.nextUserId, w.sessions[sid]);
    }
    RevokeRemovesExactly(w.sessions, id);
  }

  /** A CSRF secret is created once: a session that has one keeps it, and with it everything
      else; a session without one gets it and keeps all its other properties. */
  lemma IssueAnswers(w: World, c: Call, csrf: string)
    ensures var o := StepIssueCsrfToken(w, c, csrf);
      && o.reply == Done && o.world.users == w.users
      && if Get(Fields(w, c), KCsrf).Some? then o.world.sessions == w.sessions
         else
           && HasAdded(o.world.sessions, Sid(w, c), Fields(w, c), CsrfSecret(csrf))
           && OthersKept(w.sessions, o.world.sessions, Sid(w, c))
  {
    SaveAdds(w, c, CsrfSecret(csrf));
  }

  // ----- Ended sessions ------------------------------------------------------

  /** Session id `sid` has been given out and is not in use. */
  predicate Gone(w: World, sid: nat) {
    sid < w.nextSid && sid !in w.sessions
  }

  /** The session ids in use after a step were in use before, or are new. */
  predicate KeysGrow(w: World, c: Call, t: Table) {
    forall sid :: sid in t ==> sid in w.sessions || sid >= w.nextSid
  }

  lemma SignInKeys(k: Crypto, w: World, r: Request)
    requires r.action.Login? || r.action.VerifyTwoFactor?
    ensures KeysGrow(w, r.call, Step(k, w, r).world.sessions)
  {
  }

  lemma OtherKeys(k: Crypto, w: World, r: Request)
    requires r.action.SetupTwoFactor? || r.action.EnableTwoFactor? || r.action.IssueCsrfToken?
    ensures KeysGrow(w, r.call, Step(k, w, r).world.sessions)
  {
  }

  lemma StepKeys(k: Crypto, w: World, r: Request)
    ensures KeysGrow(w, r.call, Step(k, w, r).world.sessions)
  {
    match r.action
    case Login(_, _) => SignInKeys(k, w, r);
    case VerifyTwoFactor(_) => SignInKeys(k, w, r);
    case SetupTwoFactor(_) => OtherKeys(k, w, r);
    case EnableTwoFactor(_) => OtherKeys(k, w, r);
    case IssueCsrfToken(_) => OtherKeys(k, w, r);
    case RemoveUser(id) => RemoveKeys(k, w, r);
    case Logout =>
    case ExpireSession(_) =>
    case _ => SessionsUntouched(k, w, r);
  }

  lemma RemoveKeys(k: Crypto, w: World, r: Request)
    requires r.action.RemoveUser?
    ensures KeysGrow(w, r.call, Step(k, w, r).world.sessions)
  {
    var t := StepRemoveUser(w, r.call, r.action.id).world.sessions;
    assert t == w.sessions || t == Revoke(w.sessions, r.action.id);
  }

  lemma SignInUsesIds(k: Crypto, w: World, r: Request)
    requires SignsInOrOut(r.action)
    ensures Step(k, w, r).world.nextSid == w.nextSid + 2
  {
  }

  lemma EnrolmentUsesIds(k: Crypto, w: World, r: Request)
    requires r.action.SetupTwoFactor? || r.action.EnableTwoFactor? || r.action.DisableTwoFactor?
    ensures Step(k, w, r).world.nextSid == w.nextSid + 2
  {
  }

  lemma AccountUsesIds(k: Crypto, w: World, r: Request)
    requires r.action.ChangePassword? || r.action.CreateUser? || r.action.RemoveUser?
    ensures Step(k, w, r).world.nextSid == w.nextSid + 2
  {
  }

  /** Every request uses up the ids it might have given out. */
  lemma IdsUsedUp(k: Crypto, w: World, r: Request)
    ensures Next(k)(w, r).nextSid == w.nextSid + 2
  {
    if SignsInOrOut(r.action) {
      SignInUsesIds(k, w, r);
    } else if r.action.SetupTwoFactor? || r.action.EnableTwoFactor? || r.action.DisableTwoFactor? {
      EnrolmentUsesIds(k, w, r);
    } else {
      AccountUsesIds(k, w, r);
    }
  }

  lemma GoneStays(k: Crypto, w: World, r: Request, sid: nat)
    requires Gone(w, sid)
    ensures Gone(Next(k)(w, r), sid)
  {
    StepKeys(k, w, r);
    IdsUsedUp(k, w, r);
  }

  /** What is gone after request `n` is gone from then on. */
  lemma GoneFrom(k: Crypto, w0: World, rs: seq<Request>, n: nat, m: nat, sid: nat)
    requires n < m <= |rs| && Gone(Next(k)(At(k, w0, rs, n), rs[n]), sid)
    ensures Gone(At(k, w0, rs, m), sid)
  {
    forall w, r | Gone(w, sid) ensures Gone(Next(k)(w, r), sid) {
      GoneStays(k, w, r, sid);
    }
    GoneAlong(Next(k), w0, rs, n, m, sid);
  }

  lemma GoneAlong(step: (World, Request) -> World, w0: World, rs: seq<Request>, n: nat, m: nat, sid: nat)
    requires forall w, r :: Gone(w, sid) ==> Gone(step(w, r), sid)
    requires n < m <= |rs| && Gone(step(After(step, w0, rs, n), rs[n]), sid)
    ensures Gone(After(step, w0, rs, m), sid)
  {
    assert After(step, w0, rs, n + 1) == step(After(step, w0, rs, n), rs[n]);
    KeepsFrom(step, w => Gone(w, sid), w0, rs, n + 1, m);
  }

  lemma LogoutGone(k: Crypto, w: World, r: Request)
    requires Inv(w) && r.action.Logout?
    ensures Gone(Next(k)(w, r), Sid(w, r.call))
  {
    LogoutEndsSession(w, r.call);
    IdsUsedUp(k, w, r);
  }

  /** After a logout its session id is dead: at every later point of the run it names no
      session, and a request that still carries it is nobody's. */
  lemma LogoutIsFinal(k: Crypto, username: string, hash: string, rs: seq<Request>, n: nat, m: nat, c: Call)
    requires n < m <= |rs| && rs[n].action.Logout?
    requires c.sid == Sid(At(k, Initial(username, hash), rs, n), rs[n].call)
    ensures var w := At(k, Initial(username, hash), rs, m);
      c.sid !in w.sessions && CurrentUser(w, c) == None
  {
    var w0 := Initial(username, hash);
    InitialInv(username, hash);
    RunInv(k, w0, rs, n);
    LogoutGone(k, At(k, w0, rs, n), rs[n]);
    GoneFrom(k, w0, rs, n, m, c.sid);
  }

  /** The same for the session id that a sign-in replaces. */
  lemma ReplacedIdIsDead(k: Crypto, username: string, hash: string, rs: seq<Request>, n: nat, m: nat, uid: nat, c: Call)
    requires n < m <= |rs| && c.sid == Sid(At(k, Initial(username, hash), rs, n), rs[n].call)
    requires var w := At(k, Initial(username, hash), rs, n);
      SignedIn(w, rs[n].call, Next(k)(w, rs[n]).sessions, uid)
    ensures var w := At(k, Initial(username, hash), rs, m);
      c.sid !in w.sessions && CurrentUser(w, c) == None
  {
    var w0 := Initial(username, hash);
    var w := At(k, w0, rs, n);
    InitialInv(username, hash);
    RunInv(k, w0, rs, n);
    IdsUsedUp(k, w, rs[n]);
    GoneFrom(k, w0, rs, n, m, c.sid);
  }
}
