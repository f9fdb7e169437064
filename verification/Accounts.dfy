// The users table and the session store as one state machine. Each handler is one
// atomic step: the awaits inside the handlers (password hashing, session saving) are
// taken not to interleave. Fresh session ids are drawn from a counter.
module Accounts {
  import opened Text
  import opened Sessions
  import opened Runs

  datatype UserRow = UserRow(
    id: nat, username: string, passwordHash: string,
    totpSecret: Option<string>, totpEnabled: bool, isAdmin: bool)

  /** Argon2 and TOTP verification, as the program sees them. */
  datatype Crypto = Crypto(
    verifyPassword: (string, string) -> bool,
    verifyToken: (string, string, nat) -> bool)

  datatype World = World(users: seq<UserRow>, nextUserId: nat, sessions: Table, nextSid: nat)

  /** A request's session cookie, its time, and the cookie object its session gets. */
  datatype Call = Call(sid: nat, now: nat, cookie: Cookie)

  datatype Action =
    | Login(username: string, password: string)
    | VerifyTwoFactor(token: string)
    | Logout
    | SetupTwoFactor(secret: string)
    | EnableTwoFactor(token: string)
    | DisableTwoFactor(password: string)
    | ChangePassword(currentPassword: string, newHash: string)
    | CreateUser(username: string, passwordHash: string, isAdmin: bool)
    | RemoveUser(id: nat)
    | IssueCsrfToken(csrf: string)
    | ExpireSession(sid: nat)

  datatype Request = Request(call: Call, action: Action)

  datatype Reply = Done | TwoFactorRequired | Unauthorized | Forbidden | BadRequest | NotFound | Conflict

  datatype Outcome = Outcome(world: World, reply: Reply)

  // ----- The users table -----------------------------------------------------

  function FindById(users: seq<UserRow>, id: nat): (r: Option<UserRow>)
    ensures r.Some? ==> r.value in users && r.value.id == id
    ensures r.None? ==> forall u :: u in users ==> u.id != id
  {
    if users == [] then None
    else if users[0].id == id then Some(users[0])
    else FindById(users[1..], id)
  }

  /** WHERE username = ? COLLATE NOCASE. */
  function FindByUsername(users: seq<UserRow>, name: string): (r: Option<UserRow>)
    ensures r.Some? ==> r.value in users && FoldAll(r.value.username) == FoldAll(name)
    ensures r.None? ==> forall u :: u in users ==> FoldAll(u.username) != FoldAll(name)
  {
    if users == [] then None
    else if FoldAll(users[0].username) == FoldAll(name) then Some(users[0])
    else FindByUsername(users[1..], name)
  }

  function SetTotp(users: seq<UserRow>, id: nat, secret: Option<string>, enabled: bool): (r: seq<UserRow>) {
    seq(|users|, i requires 0 <= i < |users| =>
      if users[i].id == id then users[i].(totpSecret := secret, totpEnabled := enabled) else users[i])
  }

  function UpdatePassword(users: seq<UserRow>, id: nat, hash: string): (r: seq<UserRow>) {
    seq(|users|, i requires 0 <= i < |users| =>
      if users[i].id == id then users[i].(passwordHash := hash) else users[i])
  }

  function Without(users: seq<UserRow>, id: nat): (r: seq<UserRow>)
    ensures forall u :: u in r <==> u in users && u.id != id
  {
    if users == [] then []
    else if users[0].id == id then Without(users[1..], id)
    else [users[0]] + Without(users[1..], id)
  }

  function AdminCount(users: seq<UserRow>): nat {
    if users == [] then 0 else (if users[0].isAdmin then 1 else 0) + AdminCount(users[1..])
  }

  function SessionUserOf(u: UserRow): SessionUser {
    SessionUser(u.id, u.username, u.isAdmin)
  }

  // ----- The session of a request --------------------------------------------

  function Sid(w: World, c: Call): nat {
    if c.sid in w.sessions then c.sid else w.nextSid
  }

  function NewSid(w: World): nat {
    w.nextSid + 1
  }

  function Fields(w: World, c: Call): seq<Field> {
    if c.sid in w.sessions then w.sessions[c.sid].fields else []
  }

  function CurrentUser(w: World, c: Call): Option<SessionUser> {
    UserOf(Session(c.cookie, Fields(w, c)))
  }

  /** The session ids a request may have used up. */
  function Tick(w: World): World {
    w.(nextSid := w.nextSid + 2)
  }

  function Save(w: World, c: Call, fields: seq<Field>): World {
    w.(sessions := w.sessions[Sid(w, c) := Session(c.cookie, fields)], nextSid := w.nextSid + 2)
  }

  /** regenerate, then assign the user: a fresh id, nothing else in the session. */
  function Establish(w: World, c: Call, u: UserRow): World {
    w.(sessions := (w.sessions - {Sid(w, c)})[NewSid(w) := Session(c.cookie, [User(SessionUserOf(u))])],
       nextSid := w.nextSid + 2)
  }

  // ----- Handlers ------------------------------------------------------------

  function StepLogin(k: Crypto, w: World, c: Call, username: string, password: string): Outcome {
    match FindByUsername(w.users, username)
    case None => Outcome(Tick(w), Unauthorized)
    case Some(u) =>
      if !k.verifyPassword(u.passwordHash, password) then Outcome(Tick(w), Unauthorized)
      else if u.totpEnabled then
        Outcome(Save(w, c, Put(Fields(w, c), Pending2fa(u.id, u.username))), TwoFactorRequired)
      else Outcome(Establish(w, c, u), Done)
  }

  function StepVerifyTwoFactor(k: Crypto, w: World, c: Call, token: string): Outcome {
    match Get(Fields(w, c), KPending2fa)
    case None => Outcome(Tick(w), Unauthorized)
    case Some(p) =>
      match FindById(w.users, p.userId)
      case None => Outcome(Tick(w), Unauthorized)
      case Some(u) =>
        if u.totpSecret.None? || u.totpSecret.value == "" || !k.verifyToken(token, u.totpSecret.value, c.now)
        then Outcome(Tick(w), Unauthorized)
        else Outcome(Establish(w, c, u), Done)
  }

  function StepLogout(w: World, c: Call): Outcome {
    Outcome(Tick(w.(sessions := w.sessions - {Sid(w, c)})), Done)
  }

  function StepSetupTwoFactor(w: World, c: Call, secret: string): Outcome {
    match CurrentUser(w, c)
    case None => Outcome(Tick(w), Unauthorized)
    case Some(su) =>
      match FindById(w.users, su.id)
      case None => Outcome(Tick(w), Unauthorized)
      case Some(u) =>
        if u.totpEnabled then Outcome(Tick(w), Conflict)
        else Outcome(Save(w, c, Put(Fields(w, c), PendingTotp(secret))), Done)
  }

  function StepEnableTwoFactor(k: Crypto, w: World, c: Call, token: string): Outcome {
    match CurrentUser(w, c)
    case None => Outcome(Tick(w), Unauthorized)
    case Some(su) =>
      match Get(Fields(w, c), KPendingTotp)
      case None => Outcome(Tick(w), BadRequest)
      case Some(p) =>
        if p.secret == "" then Outcome(Tick(w), BadRequest)
        else if !k.verifyToken(token, p.secret, c.now) then Outcome(Tick(w), Unauthorized)
        else
          var w' := w.(users := SetTotp(w.users, su.id, Some(p.secret), true));
          Outcome(Save(w', c, Drop(Fields(w, c), KPendingTotp)), Done)
  }

  function StepDisableTwoFactor(k: Crypto, w: World, c: Call, password: string): Outcome {
    match CurrentUser(w, c)
    case None => Outcome(Tick(w), Unauthorized)
    case Some(su) =>
      match FindById(w.users, su.id)
      case None => Outcome(Tick(w), Unauthorized)
      case Some(u) =>
        if !k.verifyPassword(u.passwordHash, password) then Outcome(Tick(w), Unauthorized)
        else Outcome(Tick(w.(users := SetTotp(w.users, u.id, None, false))), Done)
  }

  function StepChangePassword(k: Crypto, w: World, c: Call, current: string, newHash: string): Outcome {
    match CurrentUser(w, c)
    case None => Outcome(Tick(w), Unauthorized)
    case Some(su) =>
      match FindById(w.users, su.id)
      case None => Outcome(Tick(w), NotFound)
      case Some(u) =>
        if !k.verifyPassword(u.passwordHash, current) then Outcome(Tick(w), Unauthorized)
        else Outcome(Tick(w.(users := UpdatePassword(w.users, u.id, newHash))), Done)
  }

  /** requireAdmin: what the middleware answers, or None to go on. */
  function RequireAdmin(w: World, c: Call): Option<Reply> {
    match CurrentUser(w, c)
    case None => Some(Unauthorized)
    case Some(su) => if !su.isAdmin then Some(Forbidden) else None
  }

  function StepCreateUser(w: World, c: Call, username: string, hash: string, isAdmin: bool): Outcome {
    match RequireAdmin(w, c)
    case Some(refusal) => Outcome(Tick(w), refusal)
    case None =>
      if FindByUsername(w.users, username).Some? then Outcome(Tick(w), Conflict)
      else Outcome(Tick(AddUser(w, username, hash, isAdmin)), Done)
  }

  function AddUser(w: World, username: string, hash: string, isAdmin: bool): World {
    w.(users := w.users + [UserRow(w.nextUserId, username, hash, None, false, isAdmin)],
       nextUserId := w.nextUserId + 1)
  }

  function StepRemoveUser(w: World, c: Call, id: nat): Outcome {
    match RequireAdmin(w, c)
    case Some(refusal) => Outcome(Tick(w), refusal)
    case None =>
      Removal(Tick(w), CurrentUser(w, c).value.id, id)
  }

  /** DELETE /api/users/:id, past the middleware. */
  function Removal(w: World, caller: nat, id: nat): Outcome {
    if id == caller then Outcome(w, BadRequest)
    else
      match FindById(w.users, id)
      case None => Outcome(w, NotFound)
      case Some(target) =>
        if target.isAdmin && AdminCount(w.users) == 1 then Outcome(w, Conflict)
        else Outcome(w.(users := Without(w.users, id), sessions := Revoke(w.sessions, id)), Done)
  }

  function StepIssueCsrfToken(w: World, c: Call, csrf: string): Outcome {
    if Get(Fields(w, c), KCsrf).Some? then Outcome(Tick(w), Done)
    else Outcome(Save(w, c, Put(Fields(w, c), CsrfSecret(csrf))), Done)
  }

  function Step(k: Crypto, w: World, r: Request): Outcome {
    match r.action
    case Login(username, password) => StepLogin(k, w, r.call, username, password)
    case VerifyTwoFactor(token) => StepVerifyTwoFactor(k, w, r.call, token)
    case Logout => StepLogout(w, r.call)
    case SetupTwoFactor(secret) => StepSetupTwoFactor(w, r.call, secret)
    case EnableTwoFactor(token) => StepEnableTwoFactor(k, w, r.call, token)
    case DisableTwoFactor(password) => StepDisableTwoFactor(k, w, r.call, password)
    case ChangePassword(current, newHash) => StepChangePassword(k, w, r.call, current, newHash)
    case CreateUser(username, hash, isAdmin) => StepCreateUser(w, r.call, username, hash, isAdmin)
    case RemoveUser(id) => StepRemoveUser(w, r.call, id)
    case IssueCsrfToken(csrf) => StepIssueCsrfToken(w, r.call, csrf)
    case ExpireSession(sid) => Outcome(Tick(w.(sessions := w.sessions - {sid})), Done)
  }

  /** ensureInitialAdmin: an administrator, if the table has no user at all. */
  function Bootstrap(w: World, username: string, hash: string): World {
    if |w.users| > 0 then w else AddUser(w, username, hash, true)
  }

  /** A new database after start-up. */
  function Initial(username: string, hash: string): World {
    Bootstrap(World([], 1, map[], 0), username, hash)
  }

  function Next(k: Crypto): (World, Request) -> World {
    (w: World, r: Request) => Step(k, w, r).world
  }

  /** The state before request number `n` of the run `rs`. */
  function At(k: Crypto, w0: World, rs: seq<Request>, n: nat): World
    requires n <= |rs|
  {
    After(Next(k), w0, rs, n)
  }

  // ----- The invariant -------------------------------------------------------

  predicate UserOk(u: UserRow, nextUserId: nat) {
    && 1 <= u.id < nextUserId
    && (u.totpEnabled ==> u.totpSecret.Some? && u.totpSecret.value != "")
    && (!u.totpEnabled ==> u.totpSecret.None?)
  }

  ghost predicate UsersOk(users: seq<UserRow>, nextUserId: nat) {
    && (forall u :: u in users ==> UserOk(u, nextUserId))
    && (forall u, v :: u in users && v in users && u.id == v.id ==> u == v)
    && (forall u, v :: u in users && v in users && FoldAll(u.username) == FoldAll(v.username) ==> u == v)
    && (exists u :: u in users && u.isAdmin)
  }

  /** The session's cached identity is that of a row. */
  ghost predicate Agrees(users: seq<UserRow>, su: SessionUser) {
    exists u :: u in users && SessionUserOf(u) == su
  }

  ghost predicate SessionOk(users: seq<UserRow>, nextUserId: nat, s: Session) {
    && Distinct(s.fields)
    && (UserOf(s).Some? ==> Agrees(users, UserOf(s).value))
    && (Get(s.fields, KPending2fa).Some? ==> Get(s.fields, KPending2fa).value.userId < nextUserId)
  }

  ghost predicate SessionsOk(w: World) {
    forall sid :: sid in w.sessions ==> sid < w.nextSid && SessionOk(w.users, w.nextUserId, w.sessions[sid])
  }

  ghost predicate Inv(w: World) {
    UsersOk(w.users, w.nextUserId) && SessionsOk(w)
  }

  lemma InitialInv(username: string, hash: string)
    ensures Inv(Initial(username, hash))
  {
    var w := Initial(username, hash);
    assert w.users[0].isAdmin && w.users[0] in w.users;
  }

  lemma TickInv(w: World)
    requires Inv(w)
    ensures Inv(Tick(w))
  {
  }

  lemma SaveInv(w: World, c: Call, fields: seq<Field>)
    requires Inv(w) && SessionOk(w.users, w.nextUserId, Session(c.cookie, fields))
    ensures Inv(Save(w, c, fields))
  {
  }

  lemma CurrentOk(w: World, c: Call)
    requires Inv(w)
    ensures SessionOk(w.users, w.nextUserId, Session(c.cookie, Fields(w, c)))
  {
    if c.sid in w.sessions {
      assert SessionOk(w.users, w.nextUserId, w.sessions[c.sid]);
    }
  }

  lemma EstablishInv(w: World, c: Call, u: UserRow)
    requires Inv(w) && u in w.users
    ensures Inv(Establish(w, c, u))
  {
    var s := Session(c.cookie, [User(SessionUserOf(u))]);
    assert UserOf(s) == Some(SessionUserOf(u));
    assert Agrees(w.users, SessionUserOf(u));
    assert s.fields[1..] == [];
    assert Get(s.fields, KPending2fa) == Get(s.fields[1..], KPending2fa);
    assert SessionOk(w.users, w.nextUserId, s);
  }

  lemma DropSessionsInv(w: World, t: Table)
    requires Inv(w)
    requires forall sid :: sid in t ==> sid in w.sessions && t[sid] == w.sessions[sid]
    ensures Inv(w.(sessions := t))
  {
  }

  /** Changing rows in place without touching ids, names or admin flags. */
  lemma RewriteInv(w: World, users: seq<UserRow>)
    requires Inv(w) && |users| == |w.users|
    requires forall i :: 0 <= i < |users| ==>
      SessionUserOf(users[i]) == SessionUserOf(w.users[i]) && UserOk(users[i], w.nextUserId)
    requires forall i, j :: 0 <= i < |users| && 0 <= j < |users| && w.users[i] == w.users[j] ==> users[i] == users[j]
    ensures Inv(w.(users := users))
  {
    var admin :| admin in w.users && admin.isAdmin;
    var a :| 0 <= a < |w.users| && w.users[a] == admin;
    assert users[a] in users && SessionUserOf(users[a]).isAdmin;
    forall u, v | u in users && v in users && (u.id == v.id || FoldAll(u.username) == FoldAll(v.username))
      ensures u == v
    {
      var i :| 0 <= i < |users| && users[i] == u;
      var j :| 0 <= j < |users| && users[j] == v;
      assert SessionUserOf(u) == SessionUserOf(w.users[i]) && SessionUserOf(v) == SessionUserOf(w.users[j]);
      assert w.users[i] in w.users && w.users[j] in w.users;
    }
    forall sid | sid in w.sessions
      ensures SessionOk(users, w.nextUserId, w.sessions[sid])
    {
      var s := w.sessions[sid];
      assert SessionOk(w.users, w.nextUserId, s);
      if UserOf(s).Some? {
        RewriteAgrees(w.users, users, UserOf(s).value);
      }
    }
  }

  lemma RewriteAgrees(was: seq<UserRow>, users: seq<UserRow>, su: SessionUser)
    requires |users| == |was|
    requires forall i :: 0 <= i < |users| ==> SessionUserOf(users[i]) == SessionUserOf(was[i])
    requires Agrees(was, su)
    ensures Agrees(users, su)
  {
    var u :| u in was && SessionUserOf(u) == su;
    var i :| 0 <= i < |was| && was[i] == u;
    assert users[i] in users;
  }

  lemma AddUserInv(w: World, username: string, hash: string, isAdmin: bool)
    requires Inv(w) && FindByUsername(w.users, username).None?
    ensures Inv(AddUser(w, username, hash, isAdmin))
  {
    var w' := AddUser(w, username, hash, isAdmin);
    assert forall u :: u in w.users ==> u in w'.users;
    forall sid | sid in w'.sessions
      ensures SessionOk(w'.users, w'.nextUserId, w'.sessions[sid])
    {
      assert SessionOk(w.users, w.nextUserId, w.sessions[sid]);
    }
  }

  lemma RemoveUserInv(w: World, id: nat)
    requires Inv(w)
    requires exists u :: u in w.users && u.isAdmin && u.id != id
    ensures Inv(w.(users := Without(w.users, id), sessions := Revoke(w.sessions, id)))
  {
    var users := Without(w.users, id);
    RevokeRemovesExactly(w.sessions, id);
    var admin :| admin in w.users && admin.isAdmin && admin.id != id;
    assert admin in users;
    forall sid | sid in WithoutUser(w.sessions, id)
      ensures SessionOk(users, w.nextUserId, w.sessions[sid])
    {
      var s := w.sessions[sid];
      assert SessionOk(w.users, w.nextUserId, s);
      if UserOf(s).Some? {
        var u :| u in w.users && SessionUserOf(u) == UserOf(s).value;
        assert u in users;
      }
    }
  }

  /** An administrator's request never meets the last-administrator guard: the caller is
      another administrator's row. */
  lemma CallerIsAnotherAdmin(w: World, c: Call, id: nat)
    requires Inv(w) && RequireAdmin(w, c).None? && id != CurrentUser(w, c).value.id
    ensures exists u :: u in w.users && u.isAdmin && u.id != id
    ensures FindById(w.users, id).Some? && FindById(w.users, id).value.isAdmin ==> AdminCount(w.users) >= 2
  {
    CurrentOk(w, c);
    var u :| u in w.users && SessionUserOf(u) == CurrentUser(w, c).value;
    var target := FindById(w.users, id);
    if target.Some? && target.value.isAdmin {
      TwoAdmins(w.users, u, target.value);
    }
  }

  lemma {:induction false} OneAdmin(users: seq<UserRow>, u: UserRow)
    requires u in users && u.isAdmin
    ensures AdminCount(users) >= 1
  {
    if users[0] != u {
      OneAdmin(users[1..], u);
    }
  }

  lemma {:induction false} TwoAdmins(users: seq<UserRow>, u: UserRow, v: UserRow)
    requires u in users && v in users && u != v && u.isAdmin && v.isAdmin
    ensures AdminCount(users) >= 2
  {
    if users[0] == u {
      OneAdmin(users[1..], v);
    } else if users[0] == v {
      OneAdmin(users[1..], u);
    } else {
      TwoAdmins(users[1..], u, v);
    }
  }

  lemma TotpInv(w: World, id: nat, secret: Option<string>, enabled: bool)
    requires Inv(w)
    requires if enabled then secret.Some? && secret.value != "" else secret.None?
    ensures Inv(w.(users := SetTotp(w.users, id, secret, enabled)))
  {
    var users := SetTotp(w.users, id, secret, enabled);
    forall i | 0 <= i < |users| ensures UserOk(users[i], w.nextUserId) {
      assert w.users[i] in w.users;
    }
    RewriteInv(w, users);
  }

  lemma LoginInv(k: Crypto, w: World, c: Call, username: string, password: string)
    requires Inv(w)
    ensures Inv(StepLogin(k, w, c, username, password).world)
  {
    TickInv(w);
    CurrentOk(w, c);
    var found := FindByUsername(w.users, username);
    if found.Some? {
      var u := found.value;
      EstablishInv(w, c, u);
      PutOk(w, c, Pending2fa(u.id, u.username));
    }
  }

  lemma PutOk(w: World, c: Call, f: Field)
    requires Inv(w) && !f.User? && (f.Pending2fa? ==> f.userId < w.nextUserId)
    ensures Inv(Save(w, c, Put(Fields(w, c), f)))
  {
    CurrentOk(w, c);
    SaveInv(w, c, Put(Fields(w, c), f));
  }

  lemma EnableInv(k: Crypto, w: World, c: Call, token: string)
    requires Inv(w)
    ensures Inv(StepEnableTwoFactor(k, w, c, token).world)
  {
    TickInv(w);
    CurrentOk(w, c);
    var p := Get(Fields(w, c), KPendingTotp);
    if CurrentUser(w, c).Some? && p.Some? && p.value.secret != "" {
      var id := CurrentUser(w, c).value.id;
      TotpInv(w, id, Some(p.value.secret), true);
      var w' := w.(users := SetTotp(w.users, id, Some(p.value.secret), true));
      CurrentOk(w', c);
      SaveInv(w', c, Drop(Fields(w', c), KPendingTotp));
    }
  }

  lemma RemoveInv(w: World, c: Call, id: nat)
    requires Inv(w)
    ensures Inv(StepRemoveUser(w, c, id).world)
  {
    TickInv(w);
    if RequireAdmin(w, c).None? && id != CurrentUser(w, c).value.id {
      CallerIsAnotherAdmin(w, c, id);
      RemoveUserInv(Tick(w), id);
    }
  }

  lemma VerifyInv(k: Crypto, w: World, c: Call, token: string)
    requires Inv(w)
    ensures Inv(StepVerifyTwoFactor(k, w, c, token).world)
  {
    TickInv(w);
    var p := Get(Fields(w, c), KPending2fa);
    if p.Some? && FindById(w.users, p.value.userId).Some? {
      EstablishInv(w, c, FindById(w.users, p.value.userId).value);
    }
  }

  lemma DisableInv(k: Crypto, w: World, c: Call, password: string)
    requires Inv(w)
    ensures Inv(StepDisableTwoFactor(k, w, c, password).world)
  {
    TickInv(w);
    if CurrentUser(w, c).Some? {
      var id := CurrentUser(w, c).value.id;
      TotpInv(w, id, None, false);
      TickInv(w.(users := SetTotp(w.users, id, None, false)));
    }
  }

  lemma ChangePasswordInv(k: Crypto, w: World, c: Call, current: string, newHash: string)
    requires Inv(w)
    ensures Inv(StepChangePassword(k, w, c, current, newHash).world)
  {
    TickInv(w);
    if CurrentUser(w, c).Some? {
      var id := CurrentUser(w, c).value.id;
      PasswordInv(w, id, newHash);
      TickInv(w.(users := UpdatePassword(w.users, id, newHash)));
    }
  }

  lemma PasswordInv(w: World, id: nat, hash: string)
    requires Inv(w)
    ensures Inv(w.(users := UpdatePassword(w.users, id, hash)))
  {
    var users := UpdatePassword(w.users, id, hash);
    forall i | 0 <= i < |users| ensures UserOk(users[i], w.nextUserId) {
      assert w.users[i] in w.users;
    }
    RewriteInv(w, users);
  }

  lemma CreateInv(w: World, c: Call, username: string, hash: string, isAdmin: bool)
    requires Inv(w)
    ensures Inv(StepCreateUser(w, c, username, hash, isAdmin).world)
  {
    TickInv(w);
    if FindByUsername(w.users, username).None? {
      AddUserInv(w, username, hash, isAdmin);
      TickInv(AddUser(w, username, hash, isAdmin));
    }
  }

  lemma SetupInv(w: World, c: Call, secret: string)
    requires Inv(w)
    ensures Inv(StepSetupTwoFactor(w, c, secret).world)
  {
    TickInv(w);
    PutOk(w, c, PendingTotp(secret));
  }

  lemma IssueInv(w: World, c: Call, csrf: string)
    requires Inv(w)
    ensures Inv(StepIssueCsrfToken(w, c, csrf).world)
  {
    TickInv(w);
    PutOk(w, c, CsrfSecret(csrf));
  }

  lemma EndSessionInv(w: World, sid: nat)
    requires Inv(w)
    ensures Inv(Tick(w.(sessions := w.sessions - {sid})))
  {
    DropSessionsInv(w, w.sessions - {sid});
  }

  predicate SignsInOrOut(a: Action) {
    a.Login? || a.VerifyTwoFactor? || a.Logout? || a.IssueCsrfToken? || a.ExpireSession?
  }

  lemma SignInInv(k: Crypto, w: World, r: Request)
    requires Inv(w) && SignsInOrOut(r.action)
    ensures Inv(Step(k, w, r).world)
  {
    match r.action
    case Login(username, password) => LoginInv(k, w, r.call, username, password);
    case VerifyTwoFactor(token) => VerifyInv(k, w, r.call, token);
    case Logout => EndSessionInv(w, Sid(w, r.call));
    case IssueCsrfToken(csrf) => IssueInv(w, r.call, csrf);
    case ExpireSession(sid) => EndSessionInv(w, sid);
  }

  /** Every handler keeps the invariant. */
  lemma StepInv(k: Crypto, w: World, r: Request)
    requires Inv(w)
    ensures Inv(Step(k, w, r).world)
  {
    match r.action
    case SetupTwoFactor(secret) => SetupInv(w, r.call, secret);
    case EnableTwoFactor(token) => EnableInv(k, w, r.call, token);
    case DisableTwoFactor(password) => DisableInv(k, w, r.call, password);
    case ChangePassword(current, newHash) => ChangePasswordInv(k, w, r.call, current, newHash);
    case CreateUser(username, hash, isAdmin) => CreateInv(w, r.call, username, hash, isAdmin);
    case RemoveUser(id) => RemoveInv(w, r.call, id);
    case _ => SignInInv(k, w, r);
  }

  lemma RunInv(k: Crypto, w0: World, rs: seq<Request>, n: nat)
    requires Inv(w0) && n <= |rs|
    ensures Inv(At(k, w0, rs, n))
  {
    forall w, r | Inv(w) ensures Inv(Next(k)(w, r)) {
      StepInv(k, w, r);
    }
    Keeps(Next(k), w => Inv(w), w0, rs, n);
  }

  // ----- What holds in every reachable state ---------------------------------

  /** What requireAdmin would answer if it asked the table about the session's user. */
  function TableDecision(w: World, c: Call): Option<Reply> {
    match CurrentUser(w, c)
    case None => Some(Unauthorized)
    case Some(su) =>
      match FindById(w.users, su.id)
      case None => Some(Unauthorized)
      case Some(u) => if !u.isAdmin then Some(Forbidden) else None
  }

  /** In every reachable state each logged-in session is an existing row with the same id,
      name and admin flag, so requireAdmin, which trusts the session, decides as the table
      would; and an administrator remains. */
  lemma SessionsAgreeWithTable(k: Crypto, username: string, hash: string, rs: seq<Request>, n: nat, c: Call)
    requires n <= |rs|
    ensures var w := At(k, Initial(username, hash), rs, n);
      && (forall sid :: sid in w.sessions && UserOf(w.sessions[sid]).Some? ==>
            var su := UserOf(w.sessions[sid]).value;
            FindById(w.users, su.id).Some? && SessionUserOf(FindById(w.users, su.id).value) == su)
      && RequireAdmin(w, c) == TableDecision(w, c)
      && AdminCount(w.users) >= 1
  {
    InitialInv(username, hash);
    RunInv(k, Initial(username, hash), rs, n);
    var w := At(k, Initial(username, hash), rs, n);
    forall sid | sid in w.sessions && UserOf(w.sessions[sid]).Some?
      ensures var su := UserOf(w.sessions[sid]).value;
        FindById(w.users, su.id).Some? && SessionUserOf(FindById(w.users, su.id).value) == su
    {
      assert SessionOk(w.users, w.nextUserId, w.sessions[sid]);
    }
    CurrentOk(w, c);
    var admin :| admin in w.users && admin.isAdmin;
    OneAdmin(w.users, admin);
  }

  /** "Cannot delete the last administrator" is never answered: in a reachable state
      whoever may ask is another administrator. */
  lemma LastAdminGuardNeverFires(k: Crypto, username: string, hash: string, rs: seq<Request>, n: nat, c: Call, id: nat)
    requires n <= |rs|
    ensures StepRemoveUser(At(k, Initial(username, hash), rs, n), c, id).reply != Conflict
  {
    InitialInv(username, hash);
    RunInv(k, Initial(username, hash), rs, n);
    var w := At(k, Initial(username, hash), rs, n);
    if RequireAdmin(w, c).None? && id != CurrentUser(w, c).value.id {
      CallerIsAnotherAdmin(w, c, id);
    }
  }

  /** `totp_enabled = 1` always coincides with a stored non-empty secret, and no two
      accounts have names that differ only in case. */
  lemma EnabledMeansSecret(k: Crypto, username: string, hash: string, rs: seq<Request>, n: nat, u: UserRow, v: UserRow)
    requires n <= |rs|
    requires u in At(k, Initial(username, hash), rs, n).users && v in At(k, Initial(username, hash), rs, n).users
    ensures u.totpEnabled <==> u.totpSecret.Some?
    ensures u.totpSecret != Some("")
    ensures FoldAll(u.username) == FoldAll(v.username) ==> u == v
  {
    InitialInv(username, hash);
    RunInv(k, Initial(username, hash), rs, n);
    assert UserOk(u, At(k, Initial(username, hash), rs, n).nextUserId);
  }
}
