// The authentication and user handlers as they run: they load the request's session,
// change the tables and the session store in place, and reply. Each is proved to be the
// step of the same name, so the theorems about runs are about these methods.
module AuthServer {
  import opened Text
  import opened Sessions
  import opened Accounts

  class Server {
    const crypto: Crypto
    var users: seq<UserRow>
    var nextUserId: nat
    var sessions: Table
    var nextSid: nat

    function State(): World
      reads this
    {
      World(users, nextUserId, sessions, nextSid)
    }

    ghost predicate Valid()
      reads this
    {
      Inv(State())
    }

    /** Start-up on a new database. */
    constructor (crypto: Crypto, username: string, passwordHash: string)
      ensures this.crypto == crypto && State() == Initial(username, passwordHash) && Valid()
    {
      this.crypto := crypto;
      users, nextUserId, sessions, nextSid := [], 1, map[], 0;
      new;
      var created := EnsureInitialAdmin(username, passwordHash);
      InitialInv(username, passwordHash);
    }

    method EnsureInitialAdmin(username: string, passwordHash: string) returns (created: bool)
      modifies this
      ensures State() == Bootstrap(old(State()), username, passwordHash)
      ensures created <==> |old(users)| == 0
    {
      if |users| > 0 {
        return false;
      }
      InsertUser(username, passwordHash, true);
      created := true;
    }

    method InsertUser(username: string, passwordHash: string, isAdmin: bool)
      modifies this
      ensures State() == AddUser(old(State()), username, passwordHash, isAdmin)
    {
      users := users + [UserRow(nextUserId, username, passwordHash, None, false, isAdmin)];
      nextUserId := nextUserId + 1;
    }

    /** The session of the request: the stored one, or a new empty one under a new id. */
    method LoadSession(c: Call) returns (sid: nat, newId: nat, fields: seq<Field>)
      modifies this
      ensures State() == Tick(old(State()))
      ensures sid == Sid(old(State()), c) && newId == NewSid(old(State()))
      ensures fields == Fields(old(State()), c)
    {
      if c.sid in sessions {
        sid, fields := c.sid, sessions[c.sid].fields;
      } else {
        sid, fields := nextSid, [];
      }
      newId := nextSid + 1;
      nextSid := nextSid + 2;
    }

    method SaveSession(sid: nat, s: Session)
      modifies this
      ensures State() == old(State()).(sessions := old(sessions)[sid := s])
    {
      sessions := sessions[sid := s];
    }

    /** Regenerate the session under a new id, attach the user, save. */
    method EstablishSession(c: Call, sid: nat, newId: nat, user: UserRow)
      modifies this
      ensures State() == old(State()).(sessions :=
        (old(sessions) - {sid})[newId := Session(c.cookie, [User(SessionUserOf(user))])])
    {
      sessions := sessions - {sid};
      var s := Session(c.cookie, []);
      s := s.(fields := Put(s.fields, User(SessionUserOf(user))));
      SaveSession(newId, s);
    }

    method Login(c: Call, username: string, password: string) returns (reply: Reply)
      requires Valid()
      modifies this
      ensures Valid()
      ensures Outcome(State(), reply) == StepLogin(crypto, old(State()), c, username, password)
    {
      LoginInv(crypto, State(), c, username, password);
      var sid, newId, fields := LoadSession(c);
      var user := FindByUsername(users, username);
      if user.None? || !crypto.verifyPassword(user.value.passwordHash, password) {
        return Unauthorized;
      }
      if user.value.totpEnabled {
        fields := Put(fields, Pending2fa(user.value.id, user.value.username));
        SaveSession(sid, Session(c.cookie, fields));
        return TwoFactorRequired;
      }
      EstablishSession(c, sid, newId, user.value);
      reply := Done;
    }

    method VerifyTwoFactor(c: Call, token: string) returns (reply: Reply)
      requires Valid()
      modifies this
      ensures Valid()
      ensures Outcome(State(), reply) == StepVerifyTwoFactor(crypto, old(State()), c, token)
    {
      VerifyInv(crypto, State(), c, token);
      var sid, newId, fields := LoadSession(c);
      var pending := Get(fields, KPending2fa);
      if pending.None? {
        return Unauthorized;
      }
      var user := FindById(users, pending.value.userId);
      if user.None? || user.value.totpSecret.None? || user.value.totpSecret.value == ""
         || !crypto.verifyToken(token, user.value.totpSecret.value, c.now) {
        return Unauthorized;
      }
      EstablishSession(c, sid, newId, user.value);
      reply := Done;
    }

    method Logout(c: Call) returns (reply: Reply)
      requires Valid()
      modifies this
      ensures Valid()
      ensures Outcome(State(), reply) == StepLogout(old(State()), c)
      ensures reply == Done && Sid(old(State()), c) !in sessions && c.sid !in sessions
    {
      EndSessionInv(State(), Sid(State(), c));
      var sid, newId, fields := LoadSession(c);
      sessions := sessions - {sid};
      reply := Done;
    }

    method SetupTwoFactor(c: Call, secret: string) returns (reply: Reply)
      requires Valid()
      modifies this
      ensures Valid()
      ensures Outcome(State(), reply) == StepSetupTwoFactor(old(State()), c, secret)
    {
      SetupInv(State(), c, secret);
      var sid, newId, fields := LoadSession(c);
      var current := UserOf(Session(c.cookie, fields));
      if current.None? {
        return Unauthorized;
      }
      var user := FindById(users, current.value.id);
      if user.None? {
        return Unauthorized;
      }
      if user.value.totpEnabled {
        return Conflict;
      }
      SaveSession(sid, Session(c.cookie, Put(fields, PendingTotp(secret))));
      reply := Done;
    }

    method EnableTwoFactor(c: Call, token: string) returns (reply: Reply)
      requires Valid()
      modifies this
      ensures Valid()
      ensures Outcome(State(), reply) == StepEnableTwoFactor(crypto, old(State()), c, token)
    {
      EnableInv(crypto, State(), c, token);
      var sid, newId, fields := LoadSession(c);
      var current := UserOf(Session(c.cookie, fields));
      if current.None? {
        return Unauthorized;
      }
      var pending := Get(fields, KPendingTotp);
      if pending.None? || pending.value.secret == "" {
        return BadRequest;
      }
      if !crypto.verifyToken(token, pending.value.secret, c.now) {
        return Unauthorized;
      }
      users := SetTotp(users, current.value.id, Some(pending.value.secret), true);
      SaveSession(sid, Session(c.cookie, Drop(fields, KPendingTotp)));
      reply := Done;
    }

    method DisableTwoFactor(c: Call, password: string) returns (reply: Reply)
      requires Valid()
      modifies this
      ensures Valid()
      ensures Outcome(State(), reply) == StepDisableTwoFactor(crypto, old(State()), c, password)
    {
      DisableInv(crypto, State(), c, password);
      var sid, newId, fields := LoadSession(c);
      var current := UserOf(Session(c.cookie, fields));
      if current.None? {
        return Unauthorized;
      }
      var user := FindById(users, current.value.id);
      if user.None? || !crypto.verifyPassword(user.value.passwordHash, password) {
        return Unauthorized;
      }
      users := SetTotp(users, user.value.id, None, false);
      reply := Done;
    }

    method ChangePassword(c: Call, currentPassword: string, newHash: string) returns (reply: Reply)
      requires Valid()
      modifies this
      ensures Valid()
      ensures Outcome(State(), reply) == StepChangePassword(crypto, old(State()), c, currentPassword, newHash)
    {
      ChangePasswordInv(crypto, State(), c, currentPassword, newHash);
      var sid, newId, fields := LoadSession(c);
      var current := UserOf(Session(c.cookie, fields));
      if current.None? {
        return Unauthorized;
      }
      var user := FindById(users, current.value.id);
      if user.None? {
        return NotFound;
      }
      if !crypto.verifyPassword(user.value.passwordHash, currentPassword) {
        return Unauthorized;
      }
      users := UpdatePassword(users, user.value.id, newHash);
      reply := Done;
    }

    method CreateUser(c: Call, username: string, passwordHash: string, isAdmin: bool) returns (reply: Reply)
      requires Valid()
      modifies this
      ensures Valid()
      ensures Outcome(State(), reply) == StepCreateUser(old(State()), c, username, passwordHash, isAdmin)
    {
      CreateInv(State(), c, username, passwordHash, isAdmin);
      var sid, newId, fields := LoadSession(c);
      var current := UserOf(Session(c.cookie, fields));
      if current.None? {
        return Unauthorized;
      }
      if !current.value.isAdmin {
        return Forbidden;
      }
      if FindByUsername(users, username).Some? {
        return Conflict;
      }
      InsertUser(username, passwordHash, isAdmin);
      reply := Done;
    }

    method RemoveUser(c: Call, id: nat) returns (reply: Reply)
      requires Valid()
      modifies this
      ensures Valid()
      ensures Outcome(State(), reply) == StepRemoveUser(old(State()), c, id)
    {
      RemoveInv(State(), c, id);
      var sid, newId, fields := LoadSession(c);
      var current := UserOf(Session(c.cookie, fields));
      if current.None? {
        return Unauthorized;
      }
      if !current.value.isAdmin {
        return Forbidden;
      }
      reply := RemoveAs(current.value.id, id);
    }

    /** The handler itself, once the middleware has let the caller through. */
    method RemoveAs(caller: nat, id: nat) returns (reply: Reply)
      modifies this
      ensures Outcome(State(), reply) == Removal(old(State()), caller, id)
    {
      if id == caller {
        return BadRequest;
      }
      var target := FindById(users, id);
      if target.None? {
        return NotFound;
      }
      if target.value.isAdmin && AdminCount(users) == 1 {
        return Conflict;
      }
      DeleteUser(id);
      reply := Done;
    }

    /** Delete the row, then revoke the sessions by the text pattern. */
    method DeleteUser(id: nat)
      modifies this
      ensures State() == old(State()).(users := Without(old(users), id), sessions := Revoke(old(sessions), id))
    {
      users := Without(users, id);
      sessions := Revoke(sessions, id);
    }

    /** The token given out is the secret the session holds: the one it had, or `csrf`. */
    method IssueCsrfToken(c: Call, csrf: string) returns (reply: Reply, token: string)
      requires Valid()
      modifies this
      ensures Valid()
      ensures Outcome(State(), reply) == StepIssueCsrfToken(old(State()), c, csrf)
      ensures Get(Fields(old(State()), c), KCsrf) == None ==> token == csrf
      ensures Get(Fields(old(State()), c), KCsrf).Some? ==>
        Get(Fields(old(State()), c), KCsrf) == Some(CsrfSecret(token)) && sessions == old(sessions)
      ensures Sid(old(State()), c) in sessions
      ensures Get(sessions[Sid(old(State()), c)].fields, KCsrf) == Some(CsrfSecret(token))
    {
      IssueInv(State(), c, csrf);
      var sid, newId, fields := LoadSession(c);
      var held := Get(fields, KCsrf);
      if held.None? {
        SaveSession(sid, Session(c.cookie, Put(fields, CsrfSecret(csrf))));
        token := csrf;
      } else {
        token := held.value.secret;
      }
      reply := Done;
    }
  }
}
