/** The admin account routes (controllers/adminController.js): login, the public creation of
    the first account, and the routes behind the guard (profile, creation, listing, status
    toggle and deletion) that are reserved to a super administrator. The guarded routes take the
    id the guard attached (`req.admin.id`) as `callerId`; the random salt of `bcrypt.genSalt`
    is a parameter. */
module AdminController {
  import opened Common
  import opened Sorting
  import opened AdminModel
  import opened AdminAuth

  // ---------------------------------------------------------------------------
  // POST /login
  // ---------------------------------------------------------------------------

  /** What a successful login yields: the saved record and the token set in the cookie. */
  datatype Session = Session(admin: Admin, token: Token)

  /** Both fields are present (`!email || !password` refuses). */
  predicate Credentials(email: Option<string>, password: Option<string>) {
    Truthy(email) && Truthy(password)
  }

  /** The account named by the e-mail exists and the password matches it. */
  predicate Authenticates(docs: seq<Admin>, email: string, password: string) {
    IndexOfEmail(docs, email).Some? && Matches(password, docs[IndexOfEmail(docs, email).value].password)
  }

  /** The record after a login: only the time of the last login changes. */
  function LoggedIn(a: Admin, now: int): (r: Admin)
    ensures r.derniereConnexion == Some(now)
    ensures r == a.(derniereConnexion := Some(now))
  {
    a.(derniereConnexion := Some(now))
  }

  /** The login keeps the account's password: the same credentials work on the next login. */
  lemma LoginKeepsPassword(a: Admin, now: int, password: string)
    requires Matches(password, a.password)
    ensures Matches(password, PreSave(LoggedIn(a, now), false, 0).password)
  {
    SaveKeepsLogin(LoggedIn(a, now), 0, password);
  }

  /** `POST /login`: 400 without both fields; the same 401 reply for an unknown e-mail and for
      a wrong password; 403 for a deactivated account, and only once the password matched;
      otherwise the last-login time is saved and a token issued. */
  method Login(coll: AdminCollection, email: Option<string>, password: Option<string>,
               secret: string, now: int)
    returns (reply: Reply<Session>)
    requires coll.Valid()
    modifies coll
    ensures coll.Valid() && coll.nextId == old(coll.nextId)
    ensures reply.status == BAD_REQUEST <==> !Credentials(email, password)
    ensures reply.status == UNAUTHORIZED <==>
      Credentials(email, password) && !Authenticates(old(coll.docs), email.value, password.value)
    ensures reply.status == UNAUTHORIZED ==> reply == Reply(UNAUTHORIZED, None)
    ensures reply.status == FORBIDDEN <==>
      && Credentials(email, password) && Authenticates(old(coll.docs), email.value, password.value)
      && !old(coll.docs)[IndexOfEmail(old(coll.docs), email.value).value].actif
    ensures reply.status == OK ==>
      && Credentials(email, password) && Authenticates(old(coll.docs), email.value, password.value)
      && var i := IndexOfEmail(old(coll.docs), email.value).value;
      && old(coll.docs)[i].actif
      && coll.docs == old(coll.docs)[i := LoggedIn(old(coll.docs)[i], now)]
      && reply.record == Some(Session(LoggedIn(old(coll.docs)[i], now),
                                      GenerateToken(old(coll.docs)[i], now, secret)))
    ensures reply.status != OK ==> reply.record.None? && coll.docs == old(coll.docs)
    ensures reply.status in {BAD_REQUEST, UNAUTHORIZED, FORBIDDEN, OK}
  {
    if !Truthy(email) || !Truthy(password) {
      return Reply(BAD_REQUEST, None);
    }
    var found := IndexOfEmail(coll.docs, email.value);
    if found.None? {
      return Reply(UNAUTHORIZED, None);
    }
    var i := found.value;
    var admin := coll.docs[i];
    if !Matches(password.value, admin.password) {
      return Reply(UNAUTHORIZED, None);
    }
    if !admin.actif {
      return Reply(FORBIDDEN, None);
    }
    var token := GenerateToken(admin, now, secret);
    admin := admin.(derniereConnexion := Some(now));
    admin := PreSave(admin, false, 0);
    StoredReplace(coll.docs, coll.nextId, i, admin);
    coll.docs := coll.docs[i := admin];
    reply := Reply(OK, Some(Session(admin, token)));
  }

  // ---------------------------------------------------------------------------
  // Creation
  // ---------------------------------------------------------------------------

  /** The three fields both creation routes require. */
  predicate AccountFields(nom: Option<string>, email: Option<string>, password: Option<string>) {
    Truthy(nom) && Truthy(email) && Truthy(password)
  }

  /** The document `Admin.create` validates: the e-mail through its setters, the password as
      given, active, never logged in. */
  function NewAdmin(id: nat, nom: string, email: string, password: string, role: Role, now: int)
    : (a: Admin)
    ensures a.id == id && a.nom == nom && a.role == role && a.actif && a.createdAt == now
    ensures a.email == NormalizeEmail(email) && a.password == Clear(password)
    ensures a.derniereConnexion.None?
    ensures SchemaValid(a) <==>
      nom != "" && NormalizeEmail(email) != "" && Utf16Length(password) >= MIN_PASSWORD
  {
    Admin(id, nom, NormalizeEmail(email), Clear(password), role, true, None, now)
  }

  /** The minimum length counts UTF-16 code units: three emoji make six units and pass. */
  lemma AstralPasswordLongEnough(id: nat, nom: string, email: string, role: Role, now: int)
    requires nom != "" && NormalizeEmail(email) != ""
    ensures SchemaValid(NewAdmin(id, nom, email, "\U{1F600}\U{1F600}\U{1F600}", role, now))
  {
    var p := "\U{1F600}\U{1F600}\U{1F600}";
    assert p[1..][1..][1..] == [];
  }

  /** The stored form of a new account: its password hashed by the hook. */
  function Enrolled(id: nat, nom: string, email: string, password: string, role: Role, now: int,
                    salt: nat): (a: Admin)
    ensures a == NewAdmin(id, nom, email, password, role, now).(password := a.password)
    ensures forall candidate :: Matches(candidate, a.password) <==> candidate == password
  {
    PreSave(NewAdmin(id, nom, email, password, role, now), true, salt)
  }

  /** `POST /create-first`: refused with 400 as soon as any admin exists, then for a missing
      field; a value the schema refuses (a short password, a blank e-mail) gives 500; otherwise
      an active super administrator is stored. */
  method CreateFirst(coll: AdminCollection, nom: Option<string>, email: Option<string>,
                     password: Option<string>, salt: nat, now: int)
    returns (reply: Reply<Admin>)
    requires coll.Valid()
    modifies coll
    ensures coll.Valid()
    ensures reply.status == BAD_REQUEST <==>
      |old(coll.docs)| > 0 || !AccountFields(nom, email, password)
    ensures reply.status == SERVER_ERROR <==>
      && |old(coll.docs)| == 0 && AccountFields(nom, email, password)
      && !SchemaValid(NewAdmin(old(coll.nextId), nom.value, email.value, password.value, SuperAdmin, now))
    ensures reply.status == CREATED ==>
      && |old(coll.docs)| == 0 && AccountFields(nom, email, password)
      && var a := Enrolled(old(coll.nextId), nom.value, email.value, password.value, SuperAdmin,
                           now, salt);
      && reply.record == Some(a) && a.role == SuperAdmin && a.actif
      && coll.docs == [a] && coll.nextId == old(coll.nextId) + 1
    ensures reply.status != CREATED ==>
      && reply.status in {BAD_REQUEST, SERVER_ERROR} && reply.record.None?
      && coll.docs == old(coll.docs) && coll.nextId == old(coll.nextId)
  {
    if |coll.docs| > 0 {
      return Reply(BAD_REQUEST, None);
    }
    if !Truthy(nom) || !Truthy(email) || !Truthy(password) {
      return Reply(BAD_REQUEST, None);
    }
    var a := NewAdmin(coll.nextId, nom.value, email.value, password.value, SuperAdmin, now);
    if !SchemaValid(a) {
      return Reply(SERVER_ERROR, None);
    }
    a := PreSave(a, true, salt);
    StoredAppend(coll.docs, coll.nextId, a);
    coll.docs := coll.docs + [a];
    coll.nextId := coll.nextId + 1;
    reply := Reply(CREATED, Some(a));
  }

  /** The check every route after the guard starts with: the caller's record is loaded again
      and must be a super administrator; a caller deleted meanwhile makes the handler throw,
      answered with 500. */
  function SuperGate(docs: seq<Admin>, callerId: nat): (status: int)
    ensures status == SERVER_ERROR <==> IndexOf(docs, callerId).None?
    ensures status == FORBIDDEN <==>
      IndexOf(docs, callerId).Some? && docs[IndexOf(docs, callerId).value].role != SuperAdmin
    ensures status == OK <==>
      IndexOf(docs, callerId).Some? && docs[IndexOf(docs, callerId).value].role == SuperAdmin
  {
    match IndexOf(docs, callerId)
    case None => SERVER_ERROR
    case Some(i) => if docs[i].role != SuperAdmin then FORBIDDEN else OK
  }

  /** The role a new account gets: the given one when truthy, else `admin`; `None` when it is
      outside the enum. */
  function NewRole(role: Option<string>): (r: Option<Role>)
    ensures !Truthy(role) ==> r == Some(DEFAULT_ROLE)
    ensures Truthy(role) ==> r == ParseRole(role.value)
  {
    ParseRole(OrString(role, "admin"))
  }

  /** `POST /create`: the super-administrator check, then 400 for a missing field or an e-mail
      in use, then 500 for a role outside the enum or a value the schema refuses; otherwise an
      active account is stored, an `admin` unless another role is given. */
  method Create(coll: AdminCollection, callerId: nat, nom: Option<string>, email: Option<string>,
                password: Option<string>, role: Option<string>, salt: nat, now: int)
    returns (reply: Reply<Admin>)
    requires coll.Valid()
    modifies coll
    ensures coll.Valid()
    ensures SuperGate(old(coll.docs), callerId) != OK ==>
      reply == Reply(SuperGate(old(coll.docs), callerId), None)
    ensures SuperGate(old(coll.docs), callerId) == OK ==>
      && (reply.status == BAD_REQUEST <==>
            !AccountFields(nom, email, password) || IndexOfEmail(old(coll.docs), email.value).Some?)
      && (reply.status == CREATED <==>
            && AccountFields(nom, email, password) && IndexOfEmail(old(coll.docs), email.value).None?
            && NewRole(role).Some?
            && SchemaValid(NewAdmin(old(coll.nextId), nom.value, email.value, password.value,
                                    NewRole(role).value, now)))
    ensures reply.status == CREATED ==>
      && AccountFields(nom, email, password) && NewRole(role).Some?
      && var a := Enrolled(old(coll.nextId), nom.value, email.value, password.value,
                           NewRole(role).value, now, salt);
      && reply.record == Some(a) && a.actif
      && coll.docs == old(coll.docs) + [a] && coll.nextId == old(coll.nextId) + 1
    ensures reply.status != CREATED ==>
      && reply.status in {SERVER_ERROR, FORBIDDEN, BAD_REQUEST} && reply.record.None?
      && coll.docs == old(coll.docs) && coll.nextId == old(coll.nextId)
  {
    var gate := SuperGate(coll.docs, callerId);
    if gate != OK {
      return Reply(gate, None);
    }
    if !Truthy(nom) || !Truthy(email) || !Truthy(password) {
      return Reply(BAD_REQUEST, None);
    }
    if IndexOfEmail(coll.docs, email.value).Some? {
      return Reply(BAD_REQUEST, None);
    }
    reply := Register(coll, nom.value, email.value, password.value, role, salt, now);
  }

  /** `Admin.create` with the role defaulted, once the e-mail is known to be free: 500 for a
      role outside the enum or a record the validator refuses, otherwise the hashed account is
      appended. */
  method Register(coll: AdminCollection, nom: string, email: string, password: string,
                  role: Option<string>, salt: nat, now: int)
    returns (reply: Reply<Admin>)
    requires coll.Valid() && IndexOfEmail(coll.docs, email).None?
    modifies coll
    ensures coll.Valid()
    ensures reply.status == CREATED <==>
      NewRole(role).Some? && SchemaValid(NewAdmin(old(coll.nextId), nom, email, password,
                                                  NewRole(role).value, now))
    ensures reply.status == CREATED ==>
      && var a := Enrolled(old(coll.nextId), nom, email, password, NewRole(role).value, now, salt);
      && reply.record == Some(a) && a.actif
      && coll.docs == old(coll.docs) + [a] && coll.nextId == old(coll.nextId) + 1
    ensures reply.status != CREATED ==>
      && reply == Reply(SERVER_ERROR, None)
      && coll.docs == old(coll.docs) && coll.nextId == old(coll.nextId)
  {
    var r := NewRole(role);
    if r.None? {
      return Reply(SERVER_ERROR, None);
    }
    var a := NewAdmin(coll.nextId, nom, email, password, r.value, now);
    if !SchemaValid(a) {
      return Reply(SERVER_ERROR, None);
    }
    a := PreSave(a, true, salt);
    assert a == Enrolled(coll.nextId, nom, email, password, r.value, now, salt);
    EnrolledStorable(coll.docs, coll.nextId, nom, email, password, r.value, now, salt);
    coll.docs := coll.docs + [a];
    coll.nextId := coll.nextId + 1;
    reply := Reply(CREATED, Some(a));
  }

  /** An account the validator accepts, under an e-mail not in use, can be appended: ids and
      e-mails stay unique and every stored password is hashed. */
  lemma EnrolledStorable(docs: seq<Admin>, nextId: nat, nom: string, email: string,
                         password: string, role: Role, now: int, salt: nat)
    requires Unique(docs) && AllStored(docs, nextId) && IndexOfEmail(docs, email).None?
    requires SchemaValid(NewAdmin(nextId, nom, email, password, role, now))
    ensures var a := Enrolled(nextId, nom, email, password, role, now, salt);
      Unique(docs + [a]) && AllStored(docs + [a], nextId + 1)
  {
    var a := Enrolled(nextId, nom, email, password, role, now, salt);
    assert a.password.Hashed? && SchemaValid(a);
    StoredAppend(docs, nextId, a);
  }

  // ---------------------------------------------------------------------------
  // GET /me and GET /list
  // ---------------------------------------------------------------------------

  /** The fields `/me` shows. */
  datatype Profile = Profile(id: nat, nom: string, email: string, role: Role,
                             derniereConnexion: Option<int>)

  /** `GET /me`: the caller's own profile, or 404 when the record is gone. */
  function Me(docs: seq<Admin>, callerId: nat): (reply: Reply<Profile>)
    ensures reply.status == NOT_FOUND <==> IndexOf(docs, callerId).None?
    ensures reply.status != NOT_FOUND ==>
      && reply.status == OK && reply.record.Some?
      && var a := docs[IndexOf(docs, callerId).value];
      && reply.record.value == Profile(callerId, a.nom, a.email, a.role, a.derniereConnexion)
    ensures reply.status == NOT_FOUND ==> reply.record.None?
  {
    match IndexOf(docs, callerId)
    case None => Reply(NOT_FOUND, None)
    case Some(i) =>
      var a := docs[i];
      Reply(OK, Some(Profile(a.id, a.nom, a.email, a.role, a.derniereConnexion)))
  }

  /** The fields the listing shows; never the password. */
  datatype AdminView = AdminView(id: nat, nom: string, email: string, role: Role, actif: bool,
                                 derniereConnexion: Option<int>, createdAt: int)

  function ViewOf(a: Admin): AdminView {
    AdminView(a.id, a.nom, a.email, a.role, a.actif, a.derniereConnexion, a.createdAt)
  }

  /** Sort key of `.sort({ createdAt: -1 })`. */
  function NewestFirst(a: Admin): seq<int> {
    [-a.createdAt]
  }

  /** The views of the admins in their order. */
  function Views(s: seq<Admin>): (r: seq<AdminView>)
    ensures |r| == |s|
    ensures forall i :: 0 <= i < |s| ==> r[i] == ViewOf(s[i])
  {
    seq(|s|, i requires 0 <= i < |s| => ViewOf(s[i]))
  }

  /** `GET /list`: for a super administrator, every admin, newest first; the count is the
      number of admins. */
  function List(docs: seq<Admin>, callerId: nat): (reply: Reply<seq<AdminView>>)
    ensures reply.status == SuperGate(docs, callerId)
    ensures reply.status != OK ==> reply.record.None?
    ensures reply.status == OK ==>
      && reply.record.Some? && |reply.record.value| == |docs|
      && forall a :: a in docs ==> ViewOf(a) in reply.record.value
  {
    var gate := SuperGate(docs, callerId);
    if gate != OK then Reply(gate, None)
    else
      var sorted := SortBy(docs, NewestFirst);
      var r := Views(sorted);
      assert forall a :: a in docs ==> a in multiset(sorted);
      assert forall a :: a in sorted ==> exists i :: 0 <= i < |sorted| && sorted[i] == a;
      Reply(OK, Some(r))
  }

  /** The listing is newest first. */
  lemma ListNewestFirst(docs: seq<Admin>, callerId: nat)
    requires List(docs, callerId).status == OK
    ensures var r := List(docs, callerId).record.value;
      forall i, j :: 0 <= i < j < |r| ==> r[i].createdAt >= r[j].createdAt
  {
    var sorted := SortBy(docs, NewestFirst);
    SortBySorted(docs, NewestFirst);
    var r := List(docs, callerId).record.value;
    forall i, j | 0 <= i < j < |r|
      ensures r[i].createdAt >= r[j].createdAt
    {
      assert LexLe(NewestFirst(sorted[i]), NewestFirst(sorted[j]));
      assert NewestFirst(sorted[i])[1..] == [];
    }
  }

  // ---------------------------------------------------------------------------
  // PUT /:id/toggle-status and DELETE /:id
  // ---------------------------------------------------------------------------

  /** The common ladder of both routes: refused, with a status, or let through to the record at
      `index`. */
  datatype Admission = Refused(status: int) | Admitted(index: nat)

  /** The two sides of JavaScript's `===` in the self check: the route parameter is a string,
      the id the guard attached is the stored id object. */
  datatype JsValue = JsString(text: string) | JsObjectId(id: nat)

  /** `===` never converts: a string and an object are never strictly equal. */
  predicate StrictEquals(x: JsValue, y: JsValue) {
    x == y
  }

  /** The self check as written, `req.params.id === req.admin.id`. */
  predicate SelfAsWritten(param: string, callerId: nat) {
    StrictEquals(JsString(param), JsObjectId(callerId))
  }

  /** The self check as intended: the parameter names the caller's own id. */
  predicate IsSelf(param: string, callerId: nat) {
    CastId(param) == Some(callerId)
  }

  /** The ladder as written: super-administrator check, self check, then the lookup, whose
      cast of a malformed id throws (500). */
  function AdmitAsWritten(docs: seq<Admin>, callerId: nat, param: string): (r: Admission)
    ensures r.Admitted? ==> r.index < |docs| && CastId(param) == Some(docs[r.index].id)
  {
    if SuperGate(docs, callerId) != OK then Refused(SuperGate(docs, callerId))
    else if SelfAsWritten(param, callerId) then Refused(BAD_REQUEST)
    else match CastId(param)
      case None => Refused(SERVER_ERROR)
      case Some(id) =>
        match IndexOf(docs, id)
        case None => Refused(NOT_FOUND)
        case Some(i) => Admitted(i)
  }

  /** As written, the self check lets a super administrator through to their own record: the
      text of their own id passes it, so they can deactivate or delete themselves. */
  lemma SelfCheckNeverFires(docs: seq<Admin>, callerId: nat)
    requires SuperGate(docs, callerId) == OK
    ensures AdmitAsWritten(docs, callerId, IdString(callerId)) == Admitted(IndexOf(docs, callerId).value)
    ensures forall param :: !SelfAsWritten(param, callerId)
  {
    CastIdString(callerId);
  }

  /** The ladder with the self check as intended, used by both routes. */
  function Admit(docs: seq<Admin>, callerId: nat, param: string): (r: Admission)
    ensures SuperGate(docs, callerId) != OK ==> r == Refused(SuperGate(docs, callerId))
    ensures SuperGate(docs, callerId) == OK ==>
      && (r == Refused(BAD_REQUEST) <==> IsSelf(param, callerId))
      && (r == Refused(SERVER_ERROR) <==> CastId(param).None?)
      && (r == Refused(NOT_FOUND) <==>
            CastId(param).Some? && CastId(param).value != callerId && IndexOf(docs, CastId(param).value).None?)
    ensures r.Admitted? ==>
      && r.index < |docs| && CastId(param) == Some(docs[r.index].id) && docs[r.index].id != callerId
      && SuperGate(docs, callerId) == OK
  {
    if SuperGate(docs, callerId) != OK then Refused(SuperGate(docs, callerId))
    else if IsSelf(param, callerId) then Refused(BAD_REQUEST)
    else match CastId(param)
      case None => Refused(SERVER_ERROR)
      case Some(id) =>
        match IndexOf(docs, id)
        case None => Refused(NOT_FOUND)
        case Some(i) => Admitted(i)
  }

  /** The corrected ladder differs from the written one only on the caller's own id. */
  lemma AdmitDiffersOnlyOnSelf(docs: seq<Admin>, callerId: nat, param: string)
    requires !IsSelf(param, callerId)
    ensures Admit(docs, callerId, param) == AdmitAsWritten(docs, callerId, param)
  {
  }

  /** The record after the toggle: only `actif` flips. */
  function Toggled(a: Admin): (r: Admin)
    ensures r.actif == !a.actif && r == a.(actif := r.actif)
  {
    a.(actif := !a.actif)
  }

  /** `PUT /:id/toggle-status`: the ladder, then the target's `actif` flips and nothing else
      changes; the caller's own record is never touched. */
  method ToggleStatus(coll: AdminCollection, callerId: nat, param: string)
    returns (reply: Reply<Admin>)
    requires coll.Valid()
    modifies coll
    ensures coll.Valid() && coll.nextId == old(coll.nextId)
    ensures Admit(old(coll.docs), callerId, param).Refused? ==>
      reply == Reply(Admit(old(coll.docs), callerId, param).status, None)
      && coll.docs == old(coll.docs)
    ensures Admit(old(coll.docs), callerId, param).Admitted? ==>
      var i := Admit(old(coll.docs), callerId, param).index;
      && reply == Reply(OK, Some(Toggled(old(coll.docs)[i])))
      && coll.docs == old(coll.docs)[i := Toggled(old(coll.docs)[i])]
    ensures |coll.docs| == |old(coll.docs)|
    ensures forall k :: 0 <= k < |coll.docs| && old(coll.docs)[k].id == callerId ==>
      coll.docs[k] == old(coll.docs)[k]
  {
    var gate := Admit(coll.docs, callerId, param);
    if gate.Refused? {
      return Reply(gate.status, None);
    }
    var i := gate.index;
    var admin := coll.docs[i];
    admin := admin.(actif := !admin.actif);
    admin := PreSave(admin, false, 0);
    StoredReplace(coll.docs, coll.nextId, i, admin);
    coll.docs := coll.docs[i := admin];
    reply := Reply(OK, Some(admin));
  }

  /** `DELETE /:id`: the ladder, then the target is removed; the caller's own record stays. */
  method Delete(coll: AdminCollection, callerId: nat, param: string) returns (status: int)
    requires coll.Valid()
    modifies coll
    ensures coll.Valid() && coll.nextId == old(coll.nextId)
    ensures Admit(old(coll.docs), callerId, param).Refused? ==>
      status == Admit(old(coll.docs), callerId, param).status && coll.docs == old(coll.docs)
    ensures Admit(old(coll.docs), callerId, param).Admitted? ==>
      status == OK && coll.docs == RemoveAt(old(coll.docs), Admit(old(coll.docs), callerId, param).index)
    ensures forall a :: a in old(coll.docs) && a.id == callerId ==> a in coll.docs
  {
    var gate := Admit(coll.docs, callerId, param);
    if gate.Refused? {
      return gate.status;
    }
    var i := gate.index;
    StoredRemove(coll.docs, coll.nextId, i);
    ghost var before := coll.docs;
    coll.docs := RemoveAt(coll.docs, i);
    forall a | a in before && a.id == callerId
      ensures a in coll.docs
    {
      var k :| 0 <= k < |before| && before[k] == a;
      assert k != i;
      if k < i {
        assert coll.docs[k] == a;
      } else {
        assert coll.docs[k - 1] == a;
      }
    }
    status := OK;
  }
}
