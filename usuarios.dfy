/** The accounts route: create, update and delete accounts of the usuarios table. None
    of its handlers reads an `Authorization` header. Password hashing, the random source
    and the notification e-mails are inputs or outputs of the model. */
module Usuarios {
  import opened Options
  import opened Text
  import opened Http

  /** A row of the usuarios table (without its id, which is the map key). */
  datatype Account = Account(
    nombre: string, usuario: string, rol: string, estado: string, email: string, rut: string,
    contrasena: string, idDireccion: Option<string>, idArea: Option<string>)

  /** The e-mails a handler asks to send; a failure to send does not change the reply. */
  datatype Notice =
    | Registered(to: string, nombre: string, usuario: string, rol: string, tempPassword: string)
    | StatusChanged(to: string, nombre: string, estado: string)
    | RoleChanged(to: string, nombre: string, rol: string)
    | EmailChanged(to: string, nombre: string)

  datatype Reply = Failure(status: nat, error: string) | Success(message: string)

  const RolesValidos: seq<string> := ["Administrador", "Revisor", "Editor", "Supervisor"]
  const EstadosValidos: seq<string> := ["Activa", "Desactivada", "Suspendida"]

  const CamposRequeridos := "Todos los campos son requeridos"
  const EmailInvalido := "Email inválido"
  const RolInvalido := "Rol inválido"
  const EstadoInvalido := "Estado inválido"
  const UsuarioExiste := "El usuario, email o RUT ya existe"
  const NoEncontrado := "Usuario no encontrado"
  const EnUso := "El email o RUT ya está en uso por otro usuario"
  const IdRequerido := "ID de usuario requerido"

  // ---------------------------------------------------------------------------------
  // The e-mail pattern ^[^\s@]+@[^\s@]+\.[^\s@]+$

  /** Matches `[^\s@]*`: no whitespace and no `@`. */
  predicate Plain(s: string) {
    forall i :: 0 <= i < |s| ==> !IsWhitespace(s[i]) && s[i] != '@'
  }

  /** The pattern read as a concatenation: a non-empty plain part, `@`, a non-empty
      plain part, `.`, a non-empty plain part. */
  predicate MatchesEmailPattern(e: string) {
    exists a, d :: 0 < a && a + 1 < d < |e| - 1 && e[a] == '@' && e[d] == '.' &&
      Plain(e[..a]) && Plain(e[a + 1..d]) && Plain(e[d + 1..])
  }

  /** The pattern accepts exactly the addresses without whitespace that have one `@`,
      not at the start, and a `.` after it that is neither right after the `@` nor last. */
  lemma EmailPatternSpec(e: string)
    ensures MatchesEmailPattern(e) <==>
      (forall i :: 0 <= i < |e| ==> !IsWhitespace(e[i])) &&
      exists a :: 0 < a < |e| && e[a] == '@' && (forall i :: 0 <= i < |e| && i != a ==> e[i] != '@') &&
        exists d :: a + 1 < d < |e| - 1 && e[d] == '.'
  {
    if MatchesEmailPattern(e) {
      var a, d :| 0 < a && a + 1 < d < |e| - 1 && e[a] == '@' && e[d] == '.' &&
        Plain(e[..a]) && Plain(e[a + 1..d]) && Plain(e[d + 1..]);
      forall i | 0 <= i < |e| && i != a
        ensures !IsWhitespace(e[i]) && e[i] != '@'
      {
        if i < a {
          assert e[..a][i] == e[i];
        } else if i < d {
          assert e[a + 1..d][i - a - 1] == e[i];
        } else if i > d {
          assert e[d + 1..][i - d - 1] == e[i];
        }
      }
    }
  }

  // ---------------------------------------------------------------------------------
  // generateTempPassword

  /** The k-th character of the alphabet: A to Z, then a to z, then 0 to 9. */
  function AlphabetChar(k: nat): char
    requires k < 62
  {
    if k < 26 then ('A' as int + k) as char
    else if k < 52 then ('a' as int + k - 26) as char
    else ('0' as int + k - 52) as char
  }

  /** The alphabet of `generateTempPassword`, "ABC...XYZabc...xyz012...789". */
  const PasswordChars: string := seq(62, k requires 0 <= k < 62 => AlphabetChar(k))

  predicate IsAlphanumeric(c: char) {
    'A' <= c <= 'Z' || 'a' <= c <= 'z' || '0' <= c <= '9'
  }

  /** The alphabet is exactly [A-Za-z0-9]: 62 characters, each alphanumeric, and every
      alphanumeric character among them. */
  lemma PasswordCharsAlphanumeric()
    ensures |PasswordChars| == 62
    ensures forall i :: 0 <= i < |PasswordChars| ==> IsAlphanumeric(PasswordChars[i])
    ensures forall c :: IsAlphanumeric(c) ==> c in PasswordChars
  {
    forall c | IsAlphanumeric(c)
      ensures c in PasswordChars
    {
      if 'A' <= c <= 'Z' {
        assert PasswordChars[c as int - 'A' as int] == c;
      } else if 'a' <= c <= 'z' {
        assert PasswordChars[26 + c as int - 'a' as int] == c;
      } else {
        assert PasswordChars[52 + c as int - '0' as int] == c;
      }
    }
  }

  /** `generateTempPassword`: eight characters of the alphabet, the i-th chosen by the
      i-th draw (`Math.floor(Math.random() * 62)`). */
  method GenerateTempPassword(draws: seq<nat>) returns (result: string)
    requires |draws| == 8 && forall i :: 0 <= i < 8 ==> draws[i] < 62
    ensures |result| == 8
    ensures forall i :: 0 <= i < 8 ==> IsAlphanumeric(result[i]) && result[i] == PasswordChars[draws[i]]
  {
    PasswordCharsAlphanumeric();
    result := "";
    for i := 0 to 8
      invariant |result| == i
      invariant forall k :: 0 <= k < i ==> result[k] == PasswordChars[draws[k]]
    {
      result := result + [PasswordChars[draws[i]]];
    }
  }

  // ---------------------------------------------------------------------------------
  // Request checks

  datatype CreateRequest = CreateRequest(
    nombre: Option<string>, usuario: Option<string>, email: Option<string>, rol: Option<string>,
    rut: Option<string>, idDireccion: Option<string>, idArea: Option<string>)

  datatype UpdateRequest = UpdateRequest(
    id: Option<string>, nombre: Option<string>, email: Option<string>, rol: Option<string>,
    estado: Option<string>, rut: Option<string>, idDireccion: Option<string>, idArea: Option<string>)

  /** The checks POST makes before touching the table, in order: the first that fails
      gives the reply. */
  function CreateRejection(req: CreateRequest): (r: Option<Reply>)
    ensures r.None? <==> Given(req.nombre) && Given(req.usuario) && Given(req.email) && Given(req.rol) && Given(req.rut) &&
                         MatchesEmailPattern(req.email.value) && req.rol.value in RolesValidos
    ensures r.Some? ==> r.value.Failure? && r.value.status == 400
    ensures !(Given(req.nombre) && Given(req.usuario) && Given(req.email) && Given(req.rol) && Given(req.rut)) ==>
      r == Some(Failure(400, CamposRequeridos))
  {
    if !Given(req.nombre) || !Given(req.usuario) || !Given(req.email) || !Given(req.rol) || !Given(req.rut) then
      Some(Failure(400, CamposRequeridos))
    else if !MatchesEmailPattern(req.email.value) then Some(Failure(400, EmailInvalido))
    else if req.rol.value !in RolesValidos then Some(Failure(400, RolInvalido))
    else None
  }

  /** The checks PUT makes before looking the account up, in order. */
  function UpdateRejection(req: UpdateRequest): (r: Option<Reply>)
    ensures r.None? <==> Given(req.id) && Given(req.nombre) && Given(req.email) && Given(req.rol) && Given(req.estado) &&
                         Given(req.rut) && Given(req.idDireccion) && Given(req.idArea) &&
                         MatchesEmailPattern(req.email.value) && req.rol.value in RolesValidos && req.estado.value in EstadosValidos
    ensures r.Some? ==> r.value.Failure? && r.value.status == 400
  {
    if !Given(req.id) || !Given(req.nombre) || !Given(req.email) || !Given(req.rol) || !Given(req.estado) ||
       !Given(req.rut) || !Given(req.idDireccion) || !Given(req.idArea) then
      Some(Failure(400, CamposRequeridos))
    else if !MatchesEmailPattern(req.email.value) then Some(Failure(400, EmailInvalido))
    else if req.rol.value !in RolesValidos then Some(Failure(400, RolInvalido))
    else if req.estado.value !in EstadosValidos then Some(Failure(400, EstadoInvalido))
    else None
  }

  /** The order in which the update sends its notices: estado, then rol, then e-mail. */
  function NoticeOrder(n: Notice): nat {
    match n
    case Registered(_, _, _, _, _) => 0
    case StatusChanged(_, _, _) => 1
    case RoleChanged(_, _, _) => 2
    case EmailChanged(_, _) => 3
  }

  /** Which notifications follow a successful update: one per changed estado, rol and
      email, sent to the new address, in that order and nothing else. The order matters:
      a sender that throws cuts off the ones after it. */
  function UpdateNotices(current: Account, nombre: string, email: string, rol: string, estado: string): (r: seq<Notice>)
    ensures StatusChanged(email, nombre, estado) in r <==> current.estado != estado
    ensures RoleChanged(email, nombre, rol) in r <==> current.rol != rol
    ensures EmailChanged(email, nombre) in r <==> current.email != email
    ensures forall n :: n in r ==> n == StatusChanged(email, nombre, estado) || n == RoleChanged(email, nombre, rol) ||
                                   n == EmailChanged(email, nombre)
    ensures forall i, j :: 0 <= i < j < |r| ==> NoticeOrder(r[i]) < NoticeOrder(r[j])
    ensures |r| <= 3
  {
    (if current.estado != estado then [StatusChanged(email, nombre, estado)] else []) +
    (if current.rol != rol then [RoleChanged(email, nombre, rol)] else []) +
    (if current.email != email then [EmailChanged(email, nombre)] else [])
  }

  class Accounts {
    /** The usuarios table: id to account. */
    var rows: map<string, Account>

    /** No two accounts share a login name, an e-mail or a RUT. */
    ghost predicate Unique()
      reads this
    {
      forall a, b :: a in rows && b in rows && a != b ==>
        rows[a].usuario != rows[b].usuario && rows[a].email != rows[b].email && rows[a].rut != rows[b].rut
    }

    /** `WHERE usuario = @param1 OR email = @param2 OR rut = @param3` finds a row. */
    predicate Clashes(usuario: string, email: string, rut: string)
      reads this
    {
      exists id :: id in rows && (rows[id].usuario == usuario || rows[id].email == email || rows[id].rut == rut)
    }

    /** `WHERE (email = @param1 OR rut = @param2) AND id != @param3` finds a row. */
    predicate ClashesElsewhere(id: string, email: string, rut: string)
      reads this
    {
      exists other :: other in rows && other != id && (rows[other].email == email || rows[other].rut == rut)
    }

    constructor (initial: map<string, Account>)
      ensures rows == initial
    {
      rows := initial;
    }

    /** POST: the request checks, 409 when the login name, e-mail or RUT is taken, then
        one new active account whose password is the hash of a fresh temporary password,
        which the registration e-mail carries. */
    method Create(req: CreateRequest, hash: string -> string, draws: seq<nat>, freshId: string)
      returns (reply: Reply, notice: Option<Notice>)
      requires freshId !in rows
      requires |draws| == 8 && forall i :: 0 <= i < 8 ==> draws[i] < 62
      modifies this
      ensures CreateRejection(req).Some? ==> reply == CreateRejection(req).value
      ensures CreateRejection(req).None? && old(Clashes(req.usuario.value, req.email.value, req.rut.value)) ==>
        reply == Failure(409, UsuarioExiste)
      ensures reply.Success? <==> CreateRejection(req).None? && !old(Clashes(req.usuario.value, req.email.value, req.rut.value))
      ensures reply.Success? ==> reply.message == "Usuario creado exitosamente" && notice.Some? && notice.value.Registered?
      ensures reply.Success? ==>
        var temp := notice.value.tempPassword;
        |temp| == 8 && (forall i :: 0 <= i < 8 ==> IsAlphanumeric(temp[i])) &&
        notice.value == Registered(req.email.value, req.nombre.value, req.usuario.value, req.rol.value, temp) &&
        rows == old(rows)[freshId := Account(req.nombre.value, req.usuario.value, req.rol.value, "Activa", req.email.value,
                                             req.rut.value, hash(temp), req.idDireccion, req.idArea)]
      ensures !reply.Success? ==> rows == old(rows) && notice.None?
      ensures old(Unique()) ==> Unique()
    {
      notice := None;
      var rejection := CreateRejection(req);
      if rejection.Some? {
        return rejection.value, None;
      }
      if Clashes(req.usuario.value, req.email.value, req.rut.value) {
        return Failure(409, UsuarioExiste), None;
      }
      var temp := GenerateTempPassword(draws);
      rows := rows[freshId := Account(req.nombre.value, req.usuario.value, req.rol.value, "Activa", req.email.value,
                                      req.rut.value, hash(temp), req.idDireccion, req.idArea)];
      notice := Some(Registered(req.email.value, req.nombre.value, req.usuario.value, req.rol.value, temp));
      reply := Success("Usuario creado exitosamente");
    }

    /** PUT: the request checks, 404 for an unknown id, the e-mail/RUT clash check only
        when one of them changes, then exactly seven columns of that account change. */
    method Update(req: UpdateRequest) returns (reply: Reply, notices: seq<Notice>)
      modifies this
      ensures UpdateRejection(req).Some? ==> reply == UpdateRejection(req).value
      ensures UpdateRejection(req).None? && req.id.value !in old(rows) ==> reply == Failure(404, NoEncontrado)
      ensures UpdateRejection(req).None? && req.id.value in old(rows) ==>
        var cur := old(rows)[req.id.value];
        reply == (if (req.email.value != cur.email || req.rut.value != cur.rut) &&
                     old(ClashesElsewhere(req.id.value, req.email.value, req.rut.value))
                  then Failure(409, EnUso) else Success("Usuario actualizado exitosamente"))
      ensures reply.Success? ==>
        var cur := old(rows)[req.id.value];
        rows == old(rows)[req.id.value := cur.(nombre := req.nombre.value, email := req.email.value, rol := req.rol.value,
                                              estado := req.estado.value, rut := req.rut.value,
                                              idDireccion := req.idDireccion, idArea := req.idArea)] &&
        notices == UpdateNotices(cur, req.nombre.value, req.email.value, req.rol.value, req.estado.value)
      ensures !reply.Success? ==> rows == old(rows) && notices == []
      ensures old(Unique()) ==> Unique()
    {
      notices := [];
      var rejection := UpdateRejection(req);
      if rejection.Some? {
        return rejection.value, [];
      }
      var id := req.id.value;
      if id !in rows {
        return Failure(404, NoEncontrado), [];
      }
      var cur := rows[id];
      if req.email.value != cur.email || req.rut.value != cur.rut {
        if ClashesElsewhere(id, req.email.value, req.rut.value) {
          return Failure(409, EnUso), [];
        }
      }
      ghost var before := rows;
      rows := rows[id := cur.(nombre := req.nombre.value, email := req.email.value, rol := req.rol.value,
                              estado := req.estado.value, rut := req.rut.value,
                              idDireccion := req.idDireccion, idArea := req.idArea)];
      notices := UpdateNotices(cur, req.nombre.value, req.email.value, req.rol.value, req.estado.value);
      reply := Success("Usuario actualizado exitosamente");
    }

    /** DELETE: 400 without an id, 404 for an unknown id, otherwise that account goes. */
    method Delete(id: Option<string>) returns (reply: Reply)
      modifies this
      ensures !Given(id) ==> reply == Failure(400, IdRequerido)
      ensures Given(id) && id.value !in old(rows) ==> reply == Failure(404, NoEncontrado)
      ensures reply.Success? <==> Given(id) && id.value in old(rows)
      ensures reply.Success? ==> rows == old(rows) - {id.value} && reply.message == "Usuario eliminado exitosamente"
      ensures !reply.Success? ==> rows == old(rows)
      ensures old(Unique()) ==> Unique()
    {
      if !Given(id) {
        return Failure(400, IdRequerido);
      }
      if id.value !in rows {
        return Failure(404, NoEncontrado);
      }
      rows := rows - {id.value};
      reply := Success("Usuario eliminado exitosamente");
    }
  }
}
