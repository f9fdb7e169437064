// Session records, their stored JSON text, and revocation of a user's sessions.
module Sessions {
  import opened Text
  import opened Json
  import opened JsonSearch

  datatype SessionUser = SessionUser(id: nat, username: string, isAdmin: bool)

  /** The properties the program assigns on `req.session`. */
  datatype Field =
    | User(user: SessionUser)
    | Pending2fa(userId: nat, username: string)
    | PendingTotp(secret: string)
    | CsrfSecret(secret: string)

  datatype Kind = KUser | KPending2fa | KPendingTotp | KCsrf

  function KindOf(f: Field): Kind {
    match f
    case User(_) => KUser
    case Pending2fa(_, _) => KPending2fa
    case PendingTotp(_) => KPendingTotp
    case CsrfSecret(_) => KCsrf
  }

  datatype Cookie = Cookie(
    originalMaxAge: int, expires: string, secure: bool, httpOnly: bool, path: string, sameSite: string)

  /** A session object: its cookie, then its own properties in insertion order. */
  datatype Session = Session(cookie: Cookie, fields: seq<Field>)

  // ----- JavaScript property operations -------------------------------------

  function Get(fs: seq<Field>, k: Kind): (r: Option<Field>)
    ensures r.Some? ==> r.value in fs && KindOf(r.value) == k
    ensures r.None? ==> forall f :: f in fs ==> KindOf(f) != k
  {
    if fs == [] then None
    else if KindOf(fs[0]) == k then Some(fs[0])
    else Get(fs[1..], k)
  }

  /** Assignment keeps the place of an existing property and appends a new one. */
  function Put(fs: seq<Field>, f: Field): (r: seq<Field>)
    ensures forall g :: g in r ==> g == f || g in fs
    ensures forall k :: Get(r, k) == if k == KindOf(f) then Some(f) else Get(fs, k)
    ensures Distinct(fs) ==> Distinct(r)
  {
    if fs == [] then [f]
    else if KindOf(fs[0]) == KindOf(f) then [f] + fs[1..]
    else
      var rest := Put(fs[1..], f);
      assert forall g :: g in rest ==> KindOf(g) != KindOf(fs[0]) || g in fs[1..];
      [fs[0]] + rest
  }

  /** The `delete` operator. */
  function Drop(fs: seq<Field>, k: Kind): (r: seq<Field>)
    ensures forall g :: g in r ==> g in fs
    ensures forall j :: Get(r, j) == if j == k then None else Get(fs, j)
    ensures Distinct(fs) ==> Distinct(r)
  {
    if fs == [] then []
    else if KindOf(fs[0]) == k then Drop(fs[1..], k)
    else [fs[0]] + Drop(fs[1..], k)
  }

  /** An object has each property once. */
  predicate Distinct(fs: seq<Field>) {
    fs == [] || (Get(fs[1..], KindOf(fs[0])).None? && Distinct(fs[1..]))
  }

  lemma {:induction false} DistinctGet(fs: seq<Field>, f: Field)
    requires Distinct(fs) && f in fs
    ensures Get(fs, KindOf(f)) == Some(f)
  {
    if fs[0] != f {
      DistinctGet(fs[1..], f);
    }
  }

  function UserOf(s: Session): (r: Option<SessionUser>) {
    match Get(s.fields, KUser)
    case Some(f) => Some(f.user)
    case None => None
  }

  predicate OwnedBy(s: Session, userId: nat) {
    UserOf(s).Some? && UserOf(s).value.id == userId
  }

  // ----- The stored text -----------------------------------------------------

  function CookieValue(c: Cookie): Value {
    Obj([Member("originalMaxAge", Num(c.originalMaxAge)), Member("expires", Str(c.expires)),
         Member("secure", Bool(c.secure)), Member("httpOnly", Bool(c.httpOnly)),
         Member("path", Str(c.path)), Member("sameSite", Str(c.sameSite))])
  }

  function UserValue(u: SessionUser): Value {
    Obj([Member("id", Num(u.id)), Member("username", Str(u.username)), Member("isAdmin", Bool(u.isAdmin))])
  }

  function FieldMember(f: Field): Member {
    match f
    case User(u) => Member("user", UserValue(u))
    case Pending2fa(id, name) => Member("pending2fa", Obj([Member("userId", Num(id)), Member("username", Str(name))]))
    case PendingTotp(secret) => Member("pendingTotpSecret", Str(secret))
    case CsrfSecret(secret) => Member("csrfSecret", Str(secret))
  }

  function FieldMembers(fs: seq<Field>): seq<Member> {
    if fs == [] then [] else [FieldMember(fs[0])] + FieldMembers(fs[1..])
  }

  function SessionValue(s: Session): Value {
    Obj([Member("cookie", CookieValue(s.cookie))] + FieldMembers(s.fields))
  }

  /** The `sess` column of the row. */
  function SessionText(s: Session): string {
    Write(SessionValue(s))
  }

  // ----- Reading the stored text back ----------------------------------------

  function TextProp(v: Value, key: string): Option<string> {
    match Prop(v, key)
    case Some(p) => if p.Str? then Some(p.s) else None
    case None => None
  }

  function NumProp(v: Value, key: string): Option<int> {
    match Prop(v, key)
    case Some(p) => if p.Num? then Some(p.n) else None
    case None => None
  }

  function BoolProp(v: Value, key: string): Option<bool> {
    match Prop(v, key)
    case Some(p) => if p.Bool? then Some(p.b) else None
    case None => None
  }

  /** A property of the stored object as the handlers find it on `req.session`. */
  function ReadField(m: Member): Option<Field> {
    if m.key == "user" then
      match (NumProp(m.value, "id"), TextProp(m.value, "username"), BoolProp(m.value, "isAdmin"))
      case (Some(id), Some(name), Some(admin)) => if id >= 0 then Some(User(SessionUser(id, name, admin))) else None
      case _ => None
    else if m.key == "pending2fa" then
      match (NumProp(m.value, "userId"), TextProp(m.value, "username"))
      case (Some(id), Some(name)) => if id >= 0 then Some(Pending2fa(id, name)) else None
      case _ => None
    else if m.key == "pendingTotpSecret" then
      if m.value.Str? then Some(PendingTotp(m.value.s)) else None
    else if m.key == "csrfSecret" then
      if m.value.Str? then Some(CsrfSecret(m.value.s)) else None
    else None
  }

  function ReadFields(ms: seq<Member>): Option<seq<Field>> {
    if ms == [] then Some([])
    else
      match (ReadField(ms[0]), ReadFields(ms[1..]))
      case (Some(f), Some(fs)) => Some([f] + fs)
      case _ => None
  }

  function ReadCookie(v: Value): Option<Cookie> {
    match (NumProp(v, "originalMaxAge"), TextProp(v, "expires"), BoolProp(v, "secure"))
    case (Some(age), Some(expires), Some(secure)) =>
      (match (BoolProp(v, "httpOnly"), TextProp(v, "path"), TextProp(v, "sameSite"))
       case (Some(httpOnly), Some(path), Some(sameSite)) =>
         Some(Cookie(age, expires, secure, httpOnly, path, sameSite))
       case _ => None)
    case _ => None
  }

  /** The session in a stored text: the cookie first, then the other properties. */
  function ReadSession(text: string): Option<Session> {
    match Parse(text)
    case None => None
    case Some(v) =>
      if !v.Obj? || v.members == [] || v.members[0].key != "cookie" then None
      else
        match (ReadCookie(v.members[0].value), ReadFields(v.members[1..]))
        case (Some(c), Some(fs)) => Some(Session(c, fs))
        case _ => None
  }

  lemma CookieKeysDiffer(c: Cookie)
    ensures DistinctKeys(CookieValue(c).members)
  {
    assert |"originalMaxAge"| == 14 && |"expires"| == 7 && |"secure"| == 6 && |"httpOnly"| == 8;
    assert |"path"| == 4 && |"sameSite"| == 8 && "httpOnly"[0] != "sameSite"[0];
  }

  lemma CookieRoundTrip(c: Cookie)
    ensures ReadCookie(CookieValue(c)) == Some(c)
  {
    var ms := CookieValue(c).members;
    CookieKeysDiffer(c);
    DistinctProp(ms, 0);
    DistinctProp(ms, 1);
    DistinctProp(ms, 2);
    DistinctProp(ms, 3);
    DistinctProp(ms, 4);
    DistinctProp(ms, 5);
  }

  lemma FieldRoundTrip(f: Field)
    ensures ReadField(FieldMember(f)) == Some(f)
  {
    assert |"user"| == 4 && |"pending2fa"| == 10 && |"pendingTotpSecret"| == 17;
    assert |"id"| == 2 && |"username"| == 8 && |"isAdmin"| == 7 && |"userId"| == 6;
    assert "pending2fa"[0] != "csrfSecret"[0];
    match f
    case User(u) =>
      var ms := UserValue(u).members;
      DistinctProp(ms, 0);
      DistinctProp(ms, 1);
      DistinctProp(ms, 2);
    case Pending2fa(_, _) =>
      var ms := FieldMember(f).value.members;
      DistinctProp(ms, 0);
      DistinctProp(ms, 1);
    case _ =>
  }

  lemma {:induction false} FieldsRoundTrip(fs: seq<Field>)
    ensures ReadFields(FieldMembers(fs)) == Some(fs)
  {
    if fs != [] {
      FieldRoundTrip(fs[0]);
      FieldsRoundTrip(fs[1..]);
      assert FieldMembers(fs)[1..] == FieldMembers(fs[1..]);
      assert fs == [fs[0]] + fs[1..];
    }
  }

  /** The session store gives back every session as it was saved, with all its properties. */
  lemma SessionTextRoundTrip(s: Session)
    ensures ReadSession(SessionText(s)) == Some(s)
  {
    var v := SessionValue(s);
    ParseWrite(v);
    CookieRoundTrip(s.cookie);
    FieldsRoundTrip(s.fields);
    assert v.members[0] == Member("cookie", CookieValue(s.cookie)) && v.members[1..] == FieldMembers(s.fields);
  }

  // ----- What the revocation pattern finds ----------------------------------

  lemma {:induction false} PlainNeverShows(key: string, word: string)
    requires Plain(key)
    ensures !AfterQuote(key, word)
  {
    if key != [] {
      PlainNeverShows(key[1..], word);
    }
  }

  lemma {:induction false} FlatHasNoHit(ms: seq<Member>, id: nat)
    requires forall m :: m in ms ==> !m.value.Obj?
    ensures !HitMembers(ms, id)
  {
    if ms != [] {
      assert ms[0] in ms && !Hit(ms[0].value, id) && !IdObject(ms[0].value, id);
      assert !HitMember(ms[0], id);
      assert forall m :: m in ms[1..] ==> m in ms;
      FlatHasNoHit(ms[1..], id);
    }
  }

  lemma UserHit(u: SessionUser, id: nat)
    ensures HitMember(FieldMember(User(u)), id) <==> u.id == id
  {
    var ms := UserValue(u).members;
    FlatHasNoHit(ms, id);
    assert ms[0].value == Num(u.id);
  }

  lemma OtherFieldNoHit(f: Field, id: nat)
    requires !f.User?
    ensures !HitMember(FieldMember(f), id)
  {
    match f
    case Pending2fa(_, _) =>
      KeyNotShown("pending2fa");
      FlatHasNoHit(FieldMember(f).value.members, id);
    case PendingTotp(_) => KeyNotShown("pendingTotpSecret");
    case CsrfSecret(_) => KeyNotShown("csrfSecret");
  }

  lemma KeyNotShown(key: string)
    requires Plain(key) && |key| != 4
    ensures !Shows(key, "user")
  {
    PlainNeverShows(key, "user");
    assert |FoldAll(key)| == |key| && |FoldAll("user")| == 4;
  }

  lemma CookieNoHit(c: Cookie, id: nat)
    ensures !HitMember(Member("cookie", CookieValue(c)), id)
  {
    KeyNotShown("cookie");
    FlatHasNoHit(CookieValue(c).members, id);
  }

  lemma {:induction false} FieldsHit(fs: seq<Field>, id: nat)
    ensures HitMembers(FieldMembers(fs), id) <==> exists f :: f in fs && f.User? && f.user.id == id
  {
    if fs != [] {
      FieldsHit(fs[1..], id);
      if fs[0].User? {
        UserHit(fs[0].user, id);
      } else {
        OtherFieldNoHit(fs[0], id);
      }
      var ms := FieldMembers(fs);
      assert ms[0] == FieldMember(fs[0]) && ms[1..] == FieldMembers(fs[1..]);
      assert forall f :: f in fs <==> f == fs[0] || f in fs[1..];
    }
  }

  /** For every session, whatever names, secrets and property order it holds: the LIKE
      pattern for user `id` matches its stored text iff it is logged in as user `id`. */
  lemma RevocationIsExact(s: Session, id: nat)
    requires Distinct(s.fields)
    ensures Like(UserPattern(id), SessionText(s)) <==> OwnedBy(s, id)
  {
    SearchIsExact(SessionValue(s), id);
    CookieNoHit(s.cookie, id);
    var ms := SessionValue(s).members;
    assert ms[0] == Member("cookie", CookieValue(s.cookie)) && ms[1..] == FieldMembers(s.fields);
    FieldsHit(s.fields, id);
    if f :| f in s.fields && f.User? && f.user.id == id {
      DistinctGet(s.fields, f);
    }
  }

  // ----- The sessions table --------------------------------------------------

  type Table = map<nat, Session>

  predicate WellFormed(t: Table) {
    forall sid :: sid in t ==> Distinct(t[sid].fields)
  }

  /** DELETE FROM sessions WHERE sess LIKE pattern. */
  function Revoke(t: Table, userId: nat): Table {
    map sid | sid in t && !Like(UserPattern(userId), SessionText(t[sid])) :: t[sid]
  }

  function WithoutUser(t: Table, userId: nat): Table {
    map sid | sid in t && !OwnedBy(t[sid], userId) :: t[sid]
  }

  /** The text search and the structural one delete the same rows. */
  lemma RevokeRemovesExactly(t: Table, userId: nat)
    requires WellFormed(t)
    ensures Revoke(t, userId) == WithoutUser(t, userId)
  {
    forall sid | sid in t
      ensures Like(UserPattern(userId), SessionText(t[sid])) <==> OwnedBy(t[sid], userId)
    {
      RevocationIsExact(t[sid], userId);
    }
  }

  function OwnedSids(t: Table, userId: nat): set<nat> {
    set sid | sid in t && OwnedBy(t[sid], userId)
  }

  lemma OwnedCount(t: Table, userId: nat)
    ensures |t| - |WithoutUser(t, userId)| == |OwnedSids(t, userId)|
  {
    var kept, owned := WithoutUser(t, userId).Keys, OwnedSids(t, userId);
    assert kept + owned == t.Keys && kept !! owned;
    assert |kept + owned| == |kept| + |owned|;
  }

  class SessionRepository {
    /** None until the session store has created its table. */
    var table: Option<Table>

    constructor ()
      ensures table == None
    {
      table := None;
    }

    /** Revokes the user's sessions, all of them and no others, and counts them. */
    method DeleteByUserId(userId: nat) returns (changes: nat)
      requires table.Some? ==> WellFormed(table.value)
      modifies this
      ensures old(table).None? ==> table == None && changes == 0
      ensures old(table).Some? ==>
        && table == Some(WithoutUser(old(table).value, userId))
        && changes == |OwnedSids(old(table).value, userId)|
    {
      if table.None? {
        return 0;
      }
      RevokeRemovesExactly(table.value, userId);
      OwnedCount(table.value, userId);
      var kept := Revoke(table.value, userId);
      changes := |table.value| - |kept|;
      table := Some(kept);
    }
  }
}
