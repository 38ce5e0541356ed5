/** What the route handlers share: the truthiness test they apply to body fields, the
    decoded token, and the two Bearer-token gates in front of the handlers (section 2.1
    of RFC 6750 defines the `Bearer` scheme). Token verification is an input. */
module Http {
  import opened Options
  import opened Text

  /** A body or query field passes `if (!x)`: present and not the empty string. */
  predicate Given(v: Option<string>) {
    v.Some? && v.value != ""
  }

  /** The payload a verified token carries. */
  datatype UserPayload = UserPayload(id: string, usuario: string, nombre: string, rol: string, email: string)

  /** The outcome of a gate: the handler goes on with the caller's payload, or answers
      at once with `status` and `error`. */
  datatype Gate = Pass(user: UserPayload) | Deny(status: nat, error: string)

  const TokenRequerido := "Token de autorización requerido"
  const SinPermisos := "No tienes permisos para realizar esta acción"
  const TokenInvalido := "Token inválido"
  const ErrorInterno := "Error interno del servidor"
  const Administrador := "Administrador"

  /** The token of an `Authorization` header: what follows `Bearer `, when the header is
      present, non-empty and starts with it. */
  function BearerToken(header: Option<string>): (r: Option<string>)
    ensures r.Some? <==> header.Some? && StartsWith(header.value, "Bearer ")
    ensures r.Some? ==> header.value == "Bearer " + r.value
  {
    if header.Some? && header.value != "" && StartsWith(header.value, "Bearer ") then
      assert header.value == header.value[..7] + header.value[7..];
      Some(header.value[7..])
    else None
  }

  /** The gate of every mutating handler of the lookup tables: 401 without a Bearer
      header, then 403 when the token does not verify or its role is not Administrador. */
  function AdminGate(header: Option<string>, verify: string -> Option<UserPayload>): (g: Gate)
    ensures g.Pass? <==> BearerToken(header).Some? && verify(BearerToken(header).value).Some? &&
                         verify(BearerToken(header).value).value.rol == Administrador
    ensures g.Pass? ==> g.user == verify(BearerToken(header).value).value
    ensures g.Deny? && BearerToken(header).None? ==> g == Deny(401, TokenRequerido)
    ensures g.Deny? && BearerToken(header).Some? ==> g == Deny(403, SinPermisos)
  {
    match BearerToken(header)
    case None => Deny(401, TokenRequerido)
    case Some(token) =>
      match verify(token)
      case None => Deny(403, SinPermisos)
      case Some(user) => if user.rol != Administrador then Deny(403, SinPermisos) else Pass(user)
  }

  /** The gate of the GET handlers that require a session: 401 without a Bearer header
      and 401 "Token inválido" when the token does not verify; any role passes. */
  function ReaderGate(header: Option<string>, verify: string -> Option<UserPayload>): (g: Gate)
    ensures g.Pass? <==> BearerToken(header).Some? && verify(BearerToken(header).value).Some?
    ensures g.Pass? ==> g.user == verify(BearerToken(header).value).value
    ensures g.Deny? && BearerToken(header).None? ==> g == Deny(401, TokenRequerido)
    ensures g.Deny? && BearerToken(header).Some? ==> g == Deny(401, TokenInvalido)
  {
    match BearerToken(header)
    case None => Deny(401, TokenRequerido)
    case Some(token) =>
      match verify(token)
      case None => Deny(401, TokenInvalido)
      case Some(user) => Pass(user)
  }

  /** The two gates agree except on the role: whoever passes the administrator gate may
      read, and a reader that is refused writing is refused with 403 for its role. */
  lemma GatesDifferOnlyInRole(header: Option<string>, verify: string -> Option<UserPayload>)
    ensures AdminGate(header, verify).Pass? ==> ReaderGate(header, verify) == AdminGate(header, verify)
    ensures ReaderGate(header, verify).Pass? && AdminGate(header, verify).Deny? ==>
      AdminGate(header, verify).status == 403 && ReaderGate(header, verify).user.rol != Administrador
    ensures ReaderGate(header, verify).Deny? ==> AdminGate(header, verify).Deny?
  {
  }

  /** A header without the exact `Bearer ` prefix is refused with 401 by both gates,
      whatever the verifier would say about its contents. */
  lemma WrongSchemeRefused(header: string, verify: string -> Option<UserPayload>)
    requires |header| >= 6 && header[..6] == "bearer"
    ensures AdminGate(Some(header), verify) == Deny(401, TokenRequerido)
    ensures ReaderGate(Some(header), verify) == Deny(401, TokenRequerido)
  {
    assert header[0] != "Bearer "[0];
  }
}
