/** The login route: look the login name up, refuse inactive accounts before comparing
    the password, and build the token payload. It reads the table and changes nothing.
    Password comparison and token signing are inputs. */
module Login {
  import opened Options
  import opened Http
  import Usuarios

  datatype LoginReply = Failure(status: nat, error: string) | LoggedIn(token: string, user: UserPayload)

  const Requeridos := "Usuario y contraseña son requeridos"
  const CredencialesInvalidas := "Credenciales inválidas"
  const UsuarioInactivo := "Usuario inactivo"

  /** `user.rol || "Usuario"`. */
  function RolOrDefault(rol: string): (r: string)
    ensures r != ""
    ensures rol != "" ==> r == rol
  {
    if rol != "" then rol else "Usuario"
  }

  /** The payload built from an account row, also returned as the response's user. */
  function PayloadOf(id: string, a: Usuarios.Account): (p: UserPayload)
    ensures p.id == id && p.usuario == a.usuario && p.nombre == a.nombre && p.email == a.email
    ensures p.rol == RolOrDefault(a.rol)
  {
    UserPayload(id, a.usuario, a.nombre, RolOrDefault(a.rol), a.email)
  }

  /** POST /api/auth/login over `found`, the rows `WHERE usuario = @param1` returns, as
      (id, account) pairs in the server's order. */
  function LoginReplyFor(usuario: Option<string>, contrasena: Option<string>, found: seq<(string, Usuarios.Account)>,
                         compare: (string, string) -> bool, sign: UserPayload -> string): (r: LoginReply)
    ensures !Given(usuario) || !Given(contrasena) ==> r == Failure(400, Requeridos)
    ensures r.LoggedIn? <==>
      (Given(usuario) && Given(contrasena) && found != [] &&
       found[0].1.estado == "Activa" && compare(contrasena.value, found[0].1.contrasena))
    ensures r.LoggedIn? ==> r.user == PayloadOf(found[0].0, found[0].1) && r.token == sign(r.user)
    ensures r.Failure? ==> r.status in {400, 401}
  {
    if !Given(usuario) || !Given(contrasena) then Failure(400, Requeridos)
    else if found == [] then Failure(401, CredencialesInvalidas)
    else
      var (id, user) := found[0];
      if user.estado != "Activa" then Failure(401, UsuarioInactivo)
      else if !compare(contrasena.value, user.contrasena) then Failure(401, CredencialesInvalidas)
      else
        var payload := PayloadOf(id, user);
        LoggedIn(sign(payload), payload)
  }

  /** Only the first row the query returns is looked at. */
  lemma OnlyFirstRow(usuario: Option<string>, contrasena: Option<string>, found: seq<(string, Usuarios.Account)>,
                     compare: (string, string) -> bool, sign: UserPayload -> string)
    requires found != []
    ensures LoginReplyFor(usuario, contrasena, found, compare, sign) == LoginReplyFor(usuario, contrasena, found[..1], compare, sign)
  {
  }

  /** An unknown login name and a wrong password for an active account get the same
      reply, so the reply does not tell which of the two failed. */
  lemma UnknownAndWrongPasswordAlike(usuario: string, contrasena: string, id: string, a: Usuarios.Account,
                                     compare: (string, string) -> bool, sign: UserPayload -> string)
    requires usuario != "" && contrasena != ""
    requires a.estado == "Activa" && !compare(contrasena, a.contrasena)
    ensures LoginReplyFor(Some(usuario), Some(contrasena), [(id, a)], compare, sign) ==
            LoginReplyFor(Some(usuario), Some(contrasena), [], compare, sign) == Failure(401, CredencialesInvalidas)
  {
  }

  /** An account that is not active is refused before its password is compared: the
      reply is the same whatever the comparison says. */
  lemma InactiveRefusedFirst(usuario: string, contrasena: string, id: string, a: Usuarios.Account,
                             compare: (string, string) -> bool, sign: UserPayload -> string)
    requires usuario != "" && contrasena != "" && a.estado != "Activa"
    ensures LoginReplyFor(Some(usuario), Some(contrasena), [(id, a)], compare, sign) == Failure(401, UsuarioInactivo)
    ensures LoginReplyFor(Some(usuario), Some(contrasena), [(id, a)], compare, sign) ==
            LoginReplyFor(Some(usuario), Some(contrasena), [(id, a)], (x: string, y: string) => true, sign)
  {
  }
}
