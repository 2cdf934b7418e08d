/** The admin guard and token issuer (utils/adminAuth.js). A JSON Web Token is symbolic here: a
    token is its payload signed with a key, and verifying it checks the key and then the expiry
    against the clock, as `jwt.verify` does; text that is no token fails verification. */
module AdminAuth {
  import opened Common
  import opened AdminModel

  /** `expiresIn: '24h'`, in seconds. */
  const TOKEN_LIFETIME_S := 86400

  /** The claims of a token: the ones the issuer puts in, and `iat`/`exp` in seconds. */
  datatype Payload = Payload(id: string, email: string, role: string, iat: int, exp: int)

  /** The `token` cookie: a signed payload, or any other text. */
  datatype Token = Signed(payload: Payload, key: string) | Garbled(text: string)

  /** The outcome of `jwt.verify`: the decoded payload, or the error it throws
      (`JsonWebTokenError`, `TokenExpiredError`). */
  datatype Verdict = Decoded(payload: Payload) | Invalid | Expired

  /** The clock in whole seconds, `Math.floor(Date.now() / 1000)`. */
  function Seconds(nowMs: int): int {
    nowMs / 1000
  }

  /** `jwt.verify(token, secret)` at `nowMs`: a token not signed with the secret is invalid;
      a genuine one is expired from its `exp` second on. */
  function Verify(token: Token, secret: string, nowMs: int): (v: Verdict)
    ensures v.Decoded? <==> token.Signed? && token.key == secret && Seconds(nowMs) < token.payload.exp
    ensures v.Decoded? ==> v.payload == token.payload
    ensures v == Expired <==> token.Signed? && token.key == secret && Seconds(nowMs) >= token.payload.exp
  {
    match token
    case Garbled(_) => Invalid
    case Signed(p, key) =>
      if key != secret then Invalid
      else if Seconds(nowMs) >= p.exp then Expired
      else Decoded(p)
  }

  /** `generateToken(admin)` at `nowMs`: the id, e-mail and role of the record, issued now and
      expiring 24 hours later. */
  function GenerateToken(a: Admin, nowMs: int, secret: string): (t: Token)
    ensures t.Signed? && t.key == secret
    ensures CastId(t.payload.id) == Some(a.id)
    ensures t.payload.email == a.email && ParseRole(t.payload.role) == Some(a.role)
    ensures t.payload.iat == Seconds(nowMs) && t.payload.exp == t.payload.iat + TOKEN_LIFETIME_S
  {
    CastIdString(a.id);
    Signed(Payload(IdString(a.id), a.email, RoleName(a.role), Seconds(nowMs),
                   Seconds(nowMs) + TOKEN_LIFETIME_S), secret)
  }

  /** A token the server issued verifies, with the claims it was issued with, until 24 hours
      have passed, and is expired from then on; under another secret it is invalid. */
  lemma TokenLifetime(a: Admin, issuedMs: int, secret: string, nowMs: int, other: string)
    requires other != secret
    ensures var t := GenerateToken(a, issuedMs, secret);
      && (Seconds(nowMs) < Seconds(issuedMs) + TOKEN_LIFETIME_S ==> Verify(t, secret, nowMs) == Decoded(t.payload))
      && (Seconds(nowMs) >= Seconds(issuedMs) + TOKEN_LIFETIME_S ==> Verify(t, secret, nowMs) == Expired)
      && Verify(t, other, nowMs) == Invalid
  {
  }

  // ---------------------------------------------------------------------------
  // verifyAdmin
  // ---------------------------------------------------------------------------

  /** What the guard attaches to the request: taken from the stored record. */
  datatype Context = Context(id: nat, email: string, role: Role)

  /** Why the guard refuses, one per answer it gives: 401 for a missing token, an invalid one,
      an expired one or an unusable account, 403 for a role that is not an admin role, 500 for
      any other error. */
  datatype Denial = TokenMissing | TokenInvalid | SessionExpired | NotAdmin | AccountUnavailable
                  | ServerError

  function DenialStatus(d: Denial): int {
    match d
    case NotAdmin => FORBIDDEN
    case ServerError => SERVER_ERROR
    case _ => UNAUTHORIZED
  }

  /** The guard lets the request through with a context, or answers with a denial. */
  datatype Outcome = Next(context: Context) | Refuse(denial: Denial)

  /** The cookie holds a token (`if (!token)` refuses the absent and the empty one). */
  predicate Present(cookie: Option<Token>) {
    cookie.Some? && cookie.value != Garbled("")
  }

  /** The role claim is one of the two admin roles. */
  predicate AdminClaim(p: Payload) {
    p.role == "admin" || p.role == "super_admin"
  }

  /** `verifyAdmin`: the token check, then the role claim, then the account, which must exist
      and be active; an id claim that is not an id makes the lookup throw, which is answered
      with 500. */
  function Guard(cookie: Option<Token>, secret: string, nowMs: int, docs: seq<Admin>): (o: Outcome)
    ensures o == Refuse(TokenMissing) <==> !Present(cookie)
    ensures o == Refuse(TokenInvalid) <==> Present(cookie) && Verify(cookie.value, secret, nowMs) == Invalid
    ensures o == Refuse(SessionExpired) <==> Present(cookie) && Verify(cookie.value, secret, nowMs) == Expired
    ensures o == Refuse(NotAdmin) <==>
      Present(cookie) && Verify(cookie.value, secret, nowMs).Decoded? && !AdminClaim(cookie.value.payload)
    ensures o == Refuse(ServerError) <==>
      && Present(cookie) && Verify(cookie.value, secret, nowMs).Decoded?
      && AdminClaim(cookie.value.payload) && CastId(cookie.value.payload.id).None?
    ensures o == Refuse(AccountUnavailable) <==>
      && Present(cookie) && Verify(cookie.value, secret, nowMs).Decoded?
      && AdminClaim(cookie.value.payload) && CastId(cookie.value.payload.id).Some?
      && var found := IndexOf(docs, CastId(cookie.value.payload.id).value);
      (found.None? || !docs[found.value].actif)
    ensures o.Next? <==>
      && Present(cookie) && Verify(cookie.value, secret, nowMs).Decoded?
      && AdminClaim(cookie.value.payload) && CastId(cookie.value.payload.id).Some?
      && var found := IndexOf(docs, CastId(cookie.value.payload.id).value);
      found.Some? && docs[found.value].actif
    ensures o.Next? ==>
      && Present(cookie) && Verify(cookie.value, secret, nowMs).Decoded? && AdminClaim(cookie.value.payload)
      && CastId(cookie.value.payload.id) == Some(o.context.id)
      && exists k :: 0 <= k < |docs| && docs[k].id == o.context.id && docs[k].actif
           && docs[k].email == o.context.email && docs[k].role == o.context.role
  {
    if !Present(cookie) then Refuse(TokenMissing)
    else match Verify(cookie.value, secret, nowMs)
      case Invalid => Refuse(TokenInvalid)
      case Expired => Refuse(SessionExpired)
      case Decoded(p) =>
        if !AdminClaim(p) then Refuse(NotAdmin)
        else match CastId(p.id)
          case None => Refuse(ServerError)
          case Some(id) =>
            match IndexOf(docs, id)
            case None => Refuse(AccountUnavailable)
            case Some(i) =>
              if !docs[i].actif then Refuse(AccountUnavailable)
              else Next(Context(id, docs[i].email, docs[i].role))
  }

  /** Until the account lookup, the guard's answer does not depend on the stored admins: a
      missing, invalid or expired token, or a foreign role, is refused without a lookup. */
  lemma GuardChecksTokenFirst(cookie: Option<Token>, secret: string, nowMs: int,
                              docs1: seq<Admin>, docs2: seq<Admin>)
    requires !Present(cookie) || !Verify(cookie.value, secret, nowMs).Decoded?
             || !AdminClaim(cookie.value.payload)
    ensures Guard(cookie, secret, nowMs, docs1) == Guard(cookie, secret, nowMs, docs2)
    ensures Guard(cookie, secret, nowMs, docs1).Refuse?
  {
  }

  /** A missing or deactivated account is refused even with a genuine, unexpired token. */
  lemma GuardRefusesUnavailable(a: Admin, issuedMs: int, secret: string, nowMs: int, docs: seq<Admin>)
    requires Seconds(nowMs) < Seconds(issuedMs) + TOKEN_LIFETIME_S
    requires IndexOf(docs, a.id).None? || !docs[IndexOf(docs, a.id).value].actif
    ensures Guard(Some(GenerateToken(a, issuedMs, secret)), secret, nowMs, docs) == Refuse(AccountUnavailable)
  {
    CastIdString(a.id);
  }

  /** The token the server issues at login opens the guard for 24 hours, and the context then
      carries what the record says now, even when the token's claims are out of date. */
  lemma GuardAcceptsIssuedToken(a: Admin, issuedMs: int, secret: string, nowMs: int, docs: seq<Admin>)
    requires Seconds(nowMs) < Seconds(issuedMs) + TOKEN_LIFETIME_S
    requires IndexOf(docs, a.id).Some? && docs[IndexOf(docs, a.id).value].actif
    ensures var cur := docs[IndexOf(docs, a.id).value];
      Guard(Some(GenerateToken(a, issuedMs, secret)), secret, nowMs, docs)
        == Next(Context(a.id, cur.email, cur.role))
  {
    CastIdString(a.id);
    assert RoleName(a.role) == "admin" || RoleName(a.role) == "super_admin";
  }
}
