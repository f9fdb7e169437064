// Who can change an account: the effect of every step on every row, and where the stored
// secrets and password hashes of a run come from.
module CredentialHistory {
  import opened Text
  import opened Sessions
  import opened Accounts
  import opened LoginHistory
  import opened Runs

  // ----- One row under the table operations ----------------------------------

  lemma {:induction false} FindAfterSetTotp(users: seq<UserRow>, id: nat, secret: Option<string>, enabled: bool, j: nat)
    ensures FindById(SetTotp(users, id, secret, enabled), j) ==
      match FindById(users, j)
      case None => None
      case Some(u) => Some(if j == id then u.(totpSecret := secret, totpEnabled := enabled) else u)
    decreases |users|
  {
    if users != [] {
      FindAfterSetTotp(users[1..], id, secret, enabled, j);
      assert SetTotp(users, id, secret, enabled)[1..] == SetTotp(users[1..], id, secret, enabled);
    }
  }

  lemma {:induction false} FindAfterUpdatePassword(users: seq<UserRow>, id: nat, hash: string, j: nat)
    ensures FindById(UpdatePassword(users, id, hash), j) ==
      match FindById(users, j)
      case None => None
      case Some(u) => Some(if j == id then u.(passwordHash := hash) else u)
    decreases |users|
  {
    if users != [] {
      FindAfterUpdatePassword(users[1..], id, hash, j);
      assert UpdatePassword(users, id, hash)[1..] == UpdatePassword(users[1..], id, hash);
    }
  }

  lemma {:induction false} FindAfterDelete(users: seq<UserRow>, id: nat, j: nat)
    ensures FindById(Without(users, id), j) == if j == id then None else FindById(users, j)
    decreases |users|
  {
    if users != [] {
      FindAfterDelete(users[1..], id, j);
    }
  }

  lemma {:induction false} FindAfterInsert(users: seq<UserRow>, u: UserRow, j: nat)
    ensures FindById(users + [u], j) ==
      if FindById(users, j).Some? then FindById(users, j) else if j == u.id then Some(u) else None
    decreases |users|
  {
    if users == [] {
      assert users + [u] == [u] && [u][1..] == [];
    } else {
      FindAfterInsert(users[1..], u, j);
      assert (users + [u])[0] == users[0] && (users + [u])[1..] == users[1..] + [u];
    }
  }

  // ----- Who changes row `j` -------------------------------------------------

  /** The request comes from a session logged in as `j`. */
  predicate From(w: World, r: Request, j: nat) {
    CurrentUser(w, r.call).Some? && CurrentUser(w, r.call).value.id == j
  }

  /** `j`'s own session confirms the secret it holds with a token for it. */
  predicate Confirms(k: Crypto, w: World, r: Request, j: nat, secret: string) {
    && r.action.EnableTwoFactor? && From(w, r, j) && secret != ""
    && Get(Fields(w, r.call), KPendingTotp) == Some(PendingTotp(secret))
    && k.verifyToken(r.action.token, secret, r.call.now)
  }

  predicate KnowsPassword(k: Crypto, w: World, j: nat, password: string) {
    FindById(w.users, j).Some? && k.verifyPassword(FindById(w.users, j).value.passwordHash, password)
  }

  predicate Disables(k: Crypto, w: World, r: Request, j: nat) {
    r.action.DisableTwoFactor? && From(w, r, j) && KnowsPassword(k, w, j, r.action.password)
  }

  predicate ChangesPassword(k: Crypto, w: World, r: Request, j: nat) {
    r.action.ChangePassword? && From(w, r, j) && KnowsPassword(k, w, j, r.action.currentPassword)
  }

  /** An administrator's session creates the account under the next id. */
  predicate Creates(w: World, r: Request, j: nat) {
    && r.action.CreateUser? && RequireAdmin(w, r.call).None? && j == w.nextUserId
    && FindByUsername(w.users, r.action.username).None?
  }

  /** Another administrator's session removes the account. */
  predicate Removes(w: World, r: Request, j: nat) {
    r.action.RemoveUser? && r.action.id == j && RequireAdmin(w, r.call).None? && !From(w, r, j)
  }

  /** What the row of id `j` should be after the request. */
  function RowAfter(k: Crypto, w: World, r: Request, j: nat): Option<UserRow> {
    var row := FindById(w.users, j);
    match r.action
    case CreateUser(username, hash, isAdmin) =>
      if Creates(w, r, j) then Some(UserRow(j, username, hash, None, false, isAdmin)) else row
    case RemoveUser(_) => if Removes(w, r, j) then None else row
    case ChangePassword(_, hash) => if ChangesPassword(k, w, r, j) then Some(row.value.(passwordHash := hash)) else row
    case DisableTwoFactor(_) =>
      if Disables(k, w, r, j) then Some(row.value.(totpSecret := None, totpEnabled := false)) else row
    case EnableTwoFactor(_) =>
      var p := Get(Fields(w, r.call), KPendingTotp);
      if row.Some? && p.Some? && Confirms(k, w, r, j, p.value.secret)
      then Some(row.value.(totpSecret := Some(p.value.secret), totpEnabled := true)) else row
    case _ => row
  }

  lemma EnableRow(k: Crypto, w: World, r: Request, j: nat)
    requires r.action.EnableTwoFactor?
    ensures FindById(StepEnableTwoFactor(k, w, r.call, r.action.token).world.users, j) == RowAfter(k, w, r, j)
  {
    var su, p := CurrentUser(w, r.call), Get(Fields(w, r.call), KPendingTotp);
    if su.Some? && p.Some? {
      FindAfterSetTotp(w.users, su.value.id, Some(p.value.secret), true, j);
    }
  }

  lemma DisableRow(k: Crypto, w: World, r: Request, j: nat)
    requires r.action.DisableTwoFactor?
    ensures FindById(StepDisableTwoFactor(k, w, r.call, r.action.password).world.users, j) == RowAfter(k, w, r, j)
  {
    if CurrentUser(w, r.call).Some? {
      FindAfterSetTotp(w.users, CurrentUser(w, r.call).value.id, None, false, j);
    }
  }

  lemma PasswordRow(k: Crypto, w: World, r: Request, j: nat)
    requires r.action.ChangePassword?
    ensures var a := r.action;
      FindById(StepChangePassword(k, w, r.call, a.currentPassword, a.newHash).world.users, j) == RowAfter(k, w, r, j)
  {
    if CurrentUser(w, r.call).Some? {
      FindAfterUpdatePassword(w.users, CurrentUser(w, r.call).value.id, r.action.newHash, j);
    }
  }

  lemma NextIdIsNew(w: World)
    requires Inv(w)
    ensures FindById(w.users, w.nextUserId).None?
  {
    assert forall u :: u in w.users ==> u.id < w.nextUserId by {
      assert forall u :: u in w.users ==> UserOk(u, w.nextUserId);
    }
  }

  lemma CreateRow(k: Crypto, w: World, r: Request, j: nat)
    requires FindById(w.users, w.nextUserId).None? && r.action.CreateUser?
    ensures var a := r.action;
      FindById(StepCreateUser(w, r.call, a.username, a.passwordHash, a.isAdmin).world.users, j) == RowAfter(k, w, r, j)
  {
    var a := r.action;
    FindAfterInsert(w.users, UserRow(w.nextUserId, a.username, a.passwordHash, None, false, a.isAdmin), j);
  }

  lemma RemovalDecided(w: World, r: Request)
    requires Inv(w) && r.action.RemoveUser?
    ensures var id := r.action.id;
      StepRemoveUser(w, r.call, id).world.users ==
        if Removes(w, r, id) && FindById(w.users, id).Some? then Without(w.users, id) else w.users
  {
    if RequireAdmin(w, r.call).None? && !From(w, r, r.action.id) {
      CallerIsAnotherAdmin(w, r.call, r.action.id);
    }
  }

  lemma RowAfterRemoval(k: Crypto, w: World, r: Request, j: nat)
    requires r.action.RemoveUser?
    ensures RowAfter(k, w, r, j) == if j == r.action.id && Removes(w, r, j) then None else FindById(w.users, j)
  {
  }

  lemma RemovedRow(users: seq<UserRow>, was: seq<UserRow>, id: nat, removes: bool, j: nat)
    requires users == if removes && FindById(was, id).Some? then Without(was, id) else was
    ensures FindById(users, j) == if j == id && removes then None else FindById(was, j)
  {
    FindAfterDelete(was, id, j);
  }

  lemma RemoveRow(k: Crypto, w: World, r: Request, j: nat)
    requires Inv(w) && r.action.RemoveUser?
    ensures FindById(StepRemoveUser(w, r.call, r.action.id).world.users, j) == RowAfter(k, w, r, j)
  {
    RemovalDecided(w, r);
    RowAfterRemoval(k, w, r, j);
    var id := r.action.id;
    RemovedRow(StepRemoveUser(w, r.call, id).world.users, w.users, id, Removes(w, r, id), j);
  }

  /** Sign-in, enrolment start, logout and the rest do not write the users table. */
  lemma UsersUntouched(k: Crypto, w: World, r: Request)
    requires SignsInOrOut(r.action) || r.action.SetupTwoFactor?
    ensures Step(k, w, r).world.users == w.users
  {
  }

  /** In any state with the invariant, the row of every id after any request: it is created
      or removed only by an administrator's session (removed by another's than its own), its
      password and second factor change only by its own session, the one after checking the
      password, the other after a token for the new secret; no request changes any other
      row, or any other column. */
  lemma RowsChangeOnlyByTheirOwners(k: Crypto, w: World, r: Request, j: nat)
    requires Inv(w)
    ensures FindById(Step(k, w, r).world.users, j) == RowAfter(k, w, r, j)
  {
    match r.action
    case EnableTwoFactor(_) => EnableRow(k, w, r, j);
    case DisableTwoFactor(_) => DisableRow(k, w, r, j);
    case ChangePassword(_, _) => PasswordRow(k, w, r, j);
    case CreateUser(_, _, _) =>
      NextIdIsNew(w);
      CreateRow(k, w, r, j);
    case RemoveUser(_) => RemoveRow(k, w, r, j);
    case _ => UsersUntouched(k, w, r);
  }

  // ----- Pending secrets -----------------------------------------------------

  /** Session `sid` is logged in as `uid` and holds `secret` for enrolment. */
  predicate Holds(t: Table, sid: nat, uid: nat, secret: string) {
    sid in t && UserIn(t, sid) == Some(uid) && Get(t[sid].fields, KPendingTotp) == Some(PendingTotp(secret))
  }

  /** The request hands `secret` to session `sid` of user `uid`. */
  predicate Issues(w: World, r: Request, sid: nat, uid: nat, secret: string) {
    r.action == SetupTwoFactor(secret) && From(w, r, uid) && Sid(w, r.call) == sid
  }

  predicate HoldsOrigin(w: World, r: Request, t: Table, sid: nat, uid: nat, secret: string) {
    Holds(t, sid, uid, secret) ==> Holds(w.sessions, sid, uid, secret) || Issues(w, r, sid, uid, secret)
  }

  /** Saving fields that keep the user and have no new pending secret. */
  lemma SaveHolds(w: World, r: Request, fields: seq<Field>, sid: nat, uid: nat, secret: string)
    requires Get(fields, KUser) == Get(Fields(w, r.call), KUser)
    requires Get(fields, KPendingTotp).Some? ==> Get(fields, KPendingTotp) == Get(Fields(w, r.call), KPendingTotp)
    ensures HoldsOrigin(w, r, Save(w, r.call, fields).sessions, sid, uid, secret)
  {
  }

  lemma EstablishHolds(w: World, r: Request, u: UserRow, sid: nat, uid: nat, secret: string)
    ensures HoldsOrigin(w, r, Establish(w, r.call, u).sessions, sid, uid, secret)
  {
    var fs := [User(SessionUserOf(u))];
    assert Get(fs, KPendingTotp) == Get(fs[1..], KPendingTotp) == None;
  }

  lemma FewerHolds(w: World, r: Request, t: Table, sid: nat, uid: nat, secret: string)
    requires forall s :: s in t ==> s in w.sessions && t[s] == w.sessions[s]
    ensures HoldsOrigin(w, r, t, sid, uid, secret)
  {
  }

  lemma LoginHolds(k: Crypto, w: World, r: Request, sid: nat, uid: nat, secret: string)
    requires r.action.Login?
    ensures HoldsOrigin(w, r, Step(k, w, r).world.sessions, sid, uid, secret)
  {
    var found := FindByUsername(w.users, r.action.username);
    if found.Some? {
      SaveHolds(w, r, Put(Fields(w, r.call), Pending2fa(found.value.id, found.value.username)), sid, uid, secret);
      EstablishHolds(w, r, found.value, sid, uid, secret);
    }
  }

  lemma VerifyHolds(k: Crypto, w: World, r: Request, sid: nat, uid: nat, secret: string)
    requires r.action.VerifyTwoFactor?
    ensures HoldsOrigin(w, r, Step(k, w, r).world.sessions, sid, uid, secret)
  {
    var p := Get(Fields(w, r.call), KPending2fa);
    if p.Some? && FindById(w.users, p.value.userId).Some? {
      EstablishHolds(w, r, FindById(w.users, p.value.userId).value, sid, uid, secret);
    }
  }

  lemma SetupHolds(k: Crypto, w: World, r: Request, sid: nat, uid: nat, secret: string)
    requires r.action.SetupTwoFactor?
    ensures HoldsOrigin(w, r, Step(k, w, r).world.sessions, sid, uid, secret)
  {
    SetupSessions(w, r.call, r.action.secret);
    SetupSaves(w, r, sid, uid, secret);
  }

  lemma SetupSaves(w: World, r: Request, sid: nat, uid: nat, secret: string)
    requires r.action.SetupTwoFactor?
    ensures var fields := Put(Fields(w, r.call), PendingTotp(r.action.secret));
      HoldsOrigin(w, r, Save(w, r.call, fields).sessions, sid, uid, secret)
  {
  }

  lemma EnableHolds(k: Crypto, w: World, r: Request, sid: nat, uid: nat, secret: string)
    requires r.action.EnableTwoFactor?
    ensures HoldsOrigin(w, r, Step(k, w, r).world.sessions, sid, uid, secret)
  {
    EnableSessions(k, w, r.call, r.action.token);
    SaveHolds(w, r, Drop(Fields(w, r.call), KPendingTotp), sid, uid, secret);
  }

  lemma IssueSessions(w: World, c: Call, csrf: string)
    ensures var t := StepIssueCsrfToken(w, c, csrf).world.sessions;
            t == w.sessions || t == Save(w, c, Put(Fields(w, c), CsrfSecret(csrf))).sessions
  {
  }

  lemma IssueHolds(k: Crypto, w: World, r: Request, sid: nat, uid: nat, secret: string)
    requires r.action.IssueCsrfToken?
    ensures HoldsOrigin(w, r, StepIssueCsrfToken(w, r.call, r.action.csrf).world.sessions, sid, uid, secret)
  {
    IssueSessions(w, r.call, r.action.csrf);
    SaveHolds(w, r, Put(Fields(w, r.call), CsrfSecret(r.action.csrf)), sid, uid, secret);
  }

  /** A session gets a pending secret only from the setup request of its own user. */
  lemma StepHolds(k: Crypto, w: World, r: Request, sid: nat, uid: nat, secret: string)
    ensures HoldsOrigin(w, r, Step(k, w, r).world.sessions, sid, uid, secret)
  {
    match r.action
    case Login(_, _) => LoginHolds(k, w, r, sid, uid, secret);
    case VerifyTwoFactor(_) => VerifyHolds(k, w, r, sid, uid, secret);
    case SetupTwoFactor(_) => SetupHolds(k, w, r, sid, uid, secret);
    case EnableTwoFactor(_) => EnableHolds(k, w, r, sid, uid, secret);
    case IssueCsrfToken(_) => IssueHolds(k, w, r, sid, uid, secret);
    case Logout => FewerHolds(w, r, w.sessions - {Sid(w, r.call)}, sid, uid, secret);
    case ExpireSession(gone) => FewerHolds(w, r, w.sessions - {gone}, sid, uid, secret);
    case RemoveUser(id) => FewerHolds(w, r, Revoke(w.sessions, id), sid, uid, secret);
    case _ => SessionsUntouched(k, w, r);
  }

  // ----- Whole runs ----------------------------------------------------------

  /** Some earlier request handed `secret` to session `sid` of user `uid`. */
  ghost predicate Issued(step: (World, Request) -> World, w0: World, rs: seq<Request>, n: nat, sid: nat,
                         uid: nat, secret: string)
    requires n <= |rs|
  {
    exists i :: 0 <= i < n && Issues(After(step, w0, rs, i), rs[i], sid, uid, secret)
  }

  /** Some earlier request confirmed `secret` for `id` with a token, from the very session
      of `id` it had been handed to before that. */
  ghost predicate Enrolled(k: Crypto, step: (World, Request) -> World, w0: World, rs: seq<Request>, n: nat,
                           id: nat, secret: string)
    requires n <= |rs|
  {
    exists i :: 0 <= i < n
      && Confirms(k, After(step, w0, rs, i), rs[i], id, secret)
      && Issued(step, w0, rs, i, Sid(After(step, w0, rs, i), rs[i].call), id, secret)
  }

  predicate HasSecret(w: World, id: nat, secret: string) {
    FindById(w.users, id).Some? && FindById(w.users, id).value.totpSecret == Some(secret)
  }

  predicate HasHash(w: World, id: nat, hash: string) {
    FindById(w.users, id).Some? && FindById(w.users, id).value.passwordHash == hash
  }

  /** The request gives account `id` the password hash `hash`. */
  predicate SetsHash(k: Crypto, w: World, r: Request, id: nat, hash: string) {
    || (Creates(w, r, id) && r.action.passwordHash == hash)
    || (ChangesPassword(k, w, r, id) && r.action.newHash == hash)
  }

  lemma SecretOrigin(k: Crypto, w: World, r: Request, id: nat, secret: string)
    requires Inv(w) && HasSecret(Next(k)(w, r), id, secret)
    ensures HasSecret(w, id, secret) || Confirms(k, w, r, id, secret)
  {
    RowsChangeOnlyByTheirOwners(k, w, r, id);
  }

  lemma HashOrigin(k: Crypto, w: World, r: Request, id: nat, hash: string)
    requires Inv(w) && HasHash(Next(k)(w, r), id, hash)
    ensures HasHash(w, id, hash) || SetsHash(k, w, r, id, hash)
  {
    RowsChangeOnlyByTheirOwners(k, w, r, id);
  }

  lemma ConfirmingHolds(k: Crypto, w: World, r: Request, id: nat, secret: string)
    requires Confirms(k, w, r, id, secret)
    ensures Holds(w.sessions, Sid(w, r.call), id, secret)
  {
  }

  lemma HeldWasIssued(k: Crypto, w0: World, rs: seq<Request>, n: nat, sid: nat, uid: nat, secret: string)
    requires n <= |rs| && w0.sessions == map[] && Holds(At(k, w0, rs, n).sessions, sid, uid, secret)
    ensures Issued(Next(k), w0, rs, n, sid, uid, secret)
  {
    forall w, r ensures HoldsOrigin(w, r, Next(k)(w, r).sessions, sid, uid, secret) {
      StepHolds(k, w, r, sid, uid, secret);
    }
    var i := Origin(Next(k), w => true, (w: World) => Holds(w.sessions, sid, uid, secret),
                    (w, r) => Issues(w, r, sid, uid, secret), w0, rs, n);
  }

  /** Over any run: an account has a stored second-factor secret only if the account's own
      session confirmed that secret with a token, in the session it had been issued to. */
  lemma SecretsAreConfirmed(k: Crypto, username: string, hash: string, rs: seq<Request>, n: nat, id: nat,
                            secret: string)
    requires n <= |rs| && HasSecret(At(k, Initial(username, hash), rs, n), id, secret)
    ensures Enrolled(k, Next(k), Initial(username, hash), rs, n, id, secret)
  {
    var w0 := Initial(username, hash);
    InitialInv(username, hash);
    forall w, r | Inv(w) ensures Inv(Next(k)(w, r)) {
      StepInv(k, w, r);
    }
    forall w, r | Inv(w) && HasSecret(Next(k)(w, r), id, secret)
      ensures HasSecret(w, id, secret) || Confirms(k, w, r, id, secret)
    {
      SecretOrigin(k, w, r, id, secret);
    }
    var i := Origin(Next(k), w => Inv(w), w => HasSecret(w, id, secret),
                    (w, r) => Confirms(k, w, r, id, secret), w0, rs, n);
    ConfirmingHolds(k, At(k, w0, rs, i), rs[i], id, secret);
    HeldWasIssued(k, w0, rs, i, Sid(At(k, w0, rs, i), rs[i].call), id, secret);
  }

  ghost predicate HashSet(k: Crypto, step: (World, Request) -> World, w0: World, rs: seq<Request>, n: nat,
                          id: nat, hash: string)
    requires n <= |rs|
  {
    exists i :: 0 <= i < n && SetsHash(k, After(step, w0, rs, i), rs[i], id, hash)
  }

  /** Over any run: a stored password hash is the first administrator's initial one, or was
      given at creation by an administrator, or was set by the account's own session after
      a check of the password stored before. */
  lemma HashesHaveAnOwner(k: Crypto, username: string, hash0: string, rs: seq<Request>, n: nat, id: nat, hash: string)
    requires n <= |rs| && HasHash(At(k, Initial(username, hash0), rs, n), id, hash)
    ensures (id == 1 && hash == hash0) || HashSet(k, Next(k), Initial(username, hash0), rs, n, id, hash)
  {
    InitialInv(username, hash0);
    forall w, r | Inv(w) ensures Inv(Next(k)(w, r)) {
      StepInv(k, w, r);
    }
    forall w, r | Inv(w) && HasHash(Next(k)(w, r), id, hash)
      ensures HasHash(w, id, hash) || SetsHash(k, w, r, id, hash)
    {
      HashOrigin(k, w, r, id, hash);
    }
    var i := Origin(Next(k), w => Inv(w), w => HasHash(w, id, hash),
                    (w, r) => SetsHash(k, w, r, id, hash), Initial(username, hash0), rs, n);
  }
}
