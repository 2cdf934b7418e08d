/** The Admin schema (models/Admin.js) and its collection: the required fields, the e-mail
    stored lower-cased and trimmed, the role enum with its default, and the pre-save hook that
    hashes the password only when it was modified. bcrypt is symbolic here: a hash records the
    text it was computed from and its salt, and comparing a candidate with a stored value
    succeeds exactly when the stored value is a hash of that candidate. */
module AdminModel {
  import opened Common

  /** The `minlength` of the password, checked on the value being saved. */
  const MIN_PASSWORD := 6

  datatype Role = AdminRole | SuperAdmin

  /** The role enum: exactly "admin" and "super_admin". */
  function ParseRole(s: string): (r: Option<Role>)
    ensures r == Some(AdminRole) <==> s == "admin"
    ensures r == Some(SuperAdmin) <==> s == "super_admin"
    ensures r.None? <==> s != "admin" && s != "super_admin"
  {
    if s == "admin" then Some(AdminRole)
    else if s == "super_admin" then Some(SuperAdmin)
    else None
  }

  /** The spelling of a role, as stored and as put into a token. */
  function RoleName(r: Role): (s: string)
    ensures ParseRole(s) == Some(r)
  {
    match r
    case AdminRole => "admin"
    case SuperAdmin => "super_admin"
  }

  /** The role a new account gets when none is given. */
  const DEFAULT_ROLE := AdminRole

  /** The value of the `password` field: the text as given, or a bcrypt hash of an earlier
      value (`of`) with its salt. */
  datatype Secret = Clear(text: string) | Hashed(of: Secret, salt: nat)

  /** `bcrypt.compare(candidate, stored)`: true exactly when `stored` is a hash of the
      candidate text; a value that is not a hash matches nothing. */
  predicate Matches(candidate: string, stored: Secret) {
    stored.Hashed? && stored.of == Clear(candidate)
  }

  /** A stored admin. `derniereConnexion` is absent until the first login. */
  datatype Admin = Admin(
    id: nat,
    nom: string,
    email: string,
    password: Secret,
    role: Role,
    actif: bool,
    derniereConnexion: Option<int>,
    createdAt: int)

  /** The `lowercase` and `trim` setters of `email`, applied in that order, to stored values
      and to query values alike. */
  function NormalizeEmail(s: string): (r: string)
    ensures |r| <= |s|
    ensures r == Trim(r)
  {
    var r := Trim(Lower(s));
    TrimUnchanged(r);
    r
  }

  /** What the validator checks, before the hook runs: `nom` and `email` present and the
      password at least MIN_PASSWORD UTF-16 code units long. A hash always passes. */
  predicate SchemaValid(a: Admin) {
    a.nom != "" && a.email != "" && (a.password.Clear? ==> Utf16Length(a.password.text) >= MIN_PASSWORD)
  }

  /** The pre-save hook: the password is replaced by its hash when it was modified, and the
      record is left as it is otherwise. */
  function PreSave(a: Admin, passwordModified: bool, salt: nat): (r: Admin)
    ensures r == a.(password := r.password)
    ensures passwordModified ==> r.password == Hashed(a.password, salt)
    ensures !passwordModified ==> r == a
  {
    if passwordModified then a.(password := Hashed(a.password, salt)) else a
  }

  /** A freshly created account saved with `text` as its password accepts exactly that text. */
  lemma HashedOnCreate(a: Admin, text: string, salt: nat, candidate: string)
    requires a.password == Clear(text)
    ensures Matches(candidate, PreSave(a, true, salt).password) <==> candidate == text
  {
  }

  /** A save that does not touch the password keeps every password that matched matching; a
      hook that rehashed on every save would break the login after the first one. */
  lemma SaveKeepsLogin(a: Admin, salt: nat, candidate: string)
    requires Matches(candidate, a.password)
    ensures Matches(candidate, PreSave(a, false, salt).password)
    ensures !Matches(candidate, PreSave(a, true, salt).password)
  {
  }

  /** The text form of an id (`_id.toString()`), as it appears in URLs and tokens. */
  function IdString(id: nat): (s: string)
    ensures s != ""
  {
    NatString(id)
  }

  /** The cast of a text to an id that `findById` performs: the text of an id names that id,
      and any other text fails the cast (a CastError). */
  function CastId(s: string): (r: Option<nat>)
    ensures r.Some? <==> s != "" && forall i :: 0 <= i < |s| ==> IsDigit(s[i])
  {
    if s != "" && forall i :: 0 <= i < |s| ==> IsDigit(s[i]) then Some(ParseNat(s)) else None
  }

  /** Casting the text of an id gives the id back. */
  lemma CastIdString(id: nat)
    ensures CastId(IdString(id)) == Some(id)
  {
    NatStringRoundTrip(id);
  }

  /** The admin with the given id (`findById`). */
  function IndexOf(docs: seq<Admin>, id: nat): (r: Option<nat>)
    ensures r.Some? ==> r.value < |docs| && docs[r.value].id == id
    ensures r.None? ==> forall k :: 0 <= k < |docs| ==> docs[k].id != id
  {
    FindFirst(docs, (a: Admin) => a.id == id)
  }

  /** The admin with the given e-mail (`findOne({ email })`, the query value normalised by the
      same setters). */
  function IndexOfEmail(docs: seq<Admin>, email: string): (r: Option<nat>)
    ensures r.Some? ==> r.value < |docs| && docs[r.value].email == NormalizeEmail(email)
    ensures r.None? ==> forall k :: 0 <= k < |docs| ==> docs[k].email != NormalizeEmail(email)
  {
    FindFirst(docs, (a: Admin) => a.email == NormalizeEmail(email))
  }

  /** Ids and e-mails are unique (the `_id` and the unique index on `email`). */
  predicate Unique(docs: seq<Admin>) {
    forall i, j :: 0 <= i < j < |docs| ==> docs[i].id != docs[j].id && docs[i].email != docs[j].email
  }

  /** Every stored admin has an id below `nextId`, passed validation and went through the
      hook, so its password is a hash. */
  predicate AllStored(docs: seq<Admin>, nextId: nat) {
    forall i :: 0 <= i < |docs| ==>
      docs[i].id < nextId && SchemaValid(docs[i]) && docs[i].password.Hashed?
  }

  lemma StoredAppend(docs: seq<Admin>, nextId: nat, a: Admin)
    requires Unique(docs) && AllStored(docs, nextId)
    requires a.id == nextId && SchemaValid(a) && a.password.Hashed?
    requires forall k :: 0 <= k < |docs| ==> docs[k].email != a.email
    ensures Unique(docs + [a]) && AllStored(docs + [a], nextId + 1)
  {
  }

  lemma StoredReplace(docs: seq<Admin>, nextId: nat, i: nat, a: Admin)
    requires Unique(docs) && AllStored(docs, nextId) && i < |docs|
    requires a.id == docs[i].id && a.email == docs[i].email
    requires SchemaValid(a) && a.password.Hashed?
    ensures Unique(docs[i := a]) && AllStored(docs[i := a], nextId)
  {
  }

  lemma StoredRemove(docs: seq<Admin>, nextId: nat, i: nat)
    requires Unique(docs) && AllStored(docs, nextId) && i < |docs|
    ensures Unique(RemoveAt(docs, i)) && AllStored(RemoveAt(docs, i), nextId)
  {
    var r := RemoveAt(docs, i);
    forall a, b | 0 <= a < b < |r|
      ensures r[a].id != r[b].id && r[a].email != r[b].email
    {
      var a' := if a < i then a else a + 1;
      var b' := if b < i then b else b + 1;
      assert r[a] == docs[a'] && r[b] == docs[b'];
    }
  }

  /** The `admins` collection. */
  class AdminCollection {
    var docs: seq<Admin>
    var nextId: nat

    ghost predicate Valid()
      reads this
    {
      Unique(docs) && AllStored(docs, nextId)
    }

    constructor ()
      ensures Valid() && docs == [] && nextId == 0
    {
      docs := [];
      nextId := 0;
    }
  }
}
