/** The token middleware: three gates over the `token` request header and
    the claims that signature verification decodes from it. Verification
    itself is an oracle `jwt` from the token text to the claims, or to
    nothing when the signature or expiry check fails. */
module Tokens {
  import opened Records
  import Text

  const UNAUTHENTICATED: int := 401
  const FORBIDDEN: int := 403

  /** A gate either lets the request through with the caller's claims or
      answers it with a status. */
  datatype Gate = Pass(user: Claims) | Deny(status: int)

  /** The role test shared by the organizer gate and the event editor. */
  predicate MayOrganize(role: Role)
  {
    role == Organizer || role == Admin
  }

  /** `header.split(" ")[1]`: the second space-separated component, absent
      (undefined) when the header holds no space. */
  function TokenOf(header: string): Option<string>
  {
    var parts := Text.Split(header, ' ');
    if |parts| >= 2 then Some(parts[1]) else None
  }

  /** "Bearer <token>" yields the token. */
  lemma BearerToken(scheme: string, token: string)
    requires ' ' !in scheme && ' ' !in token
    ensures TokenOf(scheme + " " + token) == Some(token)
  {
    Text.SplitPrefix(scheme, ' ', token);
    Text.SplitWhole(token, ' ');
  }

  /** A header without a space carries no token at all. */
  lemma NoSpaceNoToken(header: string)
    requires ' ' !in header
    ensures TokenOf(header) == None
  {
    Text.SplitWhole(header, ' ');
  }

  /** `verifyToken`: a missing or empty header is 401 before anything else;
      a token that is absent or fails verification is 403; otherwise the
      decoded claims pass on. */
  function VerifyToken(header: Option<string>, jwt: string -> Option<Claims>): (g: Gate)
    ensures g == Deny(UNAUTHENTICATED) <==> header.None? || header.value == ""
    ensures g.Pass? <==>
      header.Some? && header.value != "" && TokenOf(header.value).Some?
      && jwt(TokenOf(header.value).value).Some?
    ensures g.Pass? ==> g.user == jwt(TokenOf(header.value).value).value
    ensures g.Deny? ==> g.status == UNAUTHENTICATED || g.status == FORBIDDEN
  {
    if header.None? || header.value == "" then Deny(UNAUTHENTICATED)
    else
      match TokenOf(header.value)
      case None => Deny(FORBIDDEN)
      case Some(token) =>
        match jwt(token)
        case None => Deny(FORBIDDEN)
        case Some(claims) => Pass(claims)
  }

  /** `verifyTokenAndOrganizer`: `verifyToken`, then organizers and admins
      only. */
  function VerifyOrganizer(header: Option<string>, jwt: string -> Option<Claims>): (g: Gate)
    ensures g.Pass? <==> VerifyToken(header, jwt).Pass? && MayOrganize(VerifyToken(header, jwt).user.role)
    ensures g.Pass? ==> g == VerifyToken(header, jwt)
    ensures VerifyToken(header, jwt).Deny? ==> g == VerifyToken(header, jwt)
    ensures VerifyToken(header, jwt).Pass? && !g.Pass? ==> g == Deny(FORBIDDEN)
  {
    match VerifyToken(header, jwt)
    case Deny(s) => Deny(s)
    case Pass(claims) => if MayOrganize(claims.role) then Pass(claims) else Deny(FORBIDDEN)
  }

  /** `verifyTokenAndAdmin`: `verifyToken`, then admins only. */
  function VerifyAdmin(header: Option<string>, jwt: string -> Option<Claims>): (g: Gate)
    ensures g.Pass? <==> VerifyToken(header, jwt).Pass? && VerifyToken(header, jwt).user.role == Admin
    ensures g.Pass? ==> g == VerifyToken(header, jwt)
    ensures VerifyToken(header, jwt).Deny? ==> g == VerifyToken(header, jwt)
    ensures VerifyToken(header, jwt).Pass? && !g.Pass? ==> g == Deny(FORBIDDEN)
  {
    match VerifyToken(header, jwt)
    case Deny(s) => Deny(s)
    case Pass(claims) => if claims.role == Admin then Pass(claims) else Deny(FORBIDDEN)
  }

  /** Every caller the admin gate admits, the organizer gate admits too. */
  lemma AdminPassesOrganizer(header: Option<string>, jwt: string -> Option<Claims>)
    requires VerifyAdmin(header, jwt).Pass?
    ensures VerifyOrganizer(header, jwt) == VerifyAdmin(header, jwt)
  {
  }
}
