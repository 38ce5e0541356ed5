/** The route by which a signed-in user changes their own password: request checks,
    then the account must exist and be active, then the current password must match
    the stored hash, and only then the stored hash is replaced. */
module OwnPassword {
  import opened Options
  import opened Http
  import opened Usuarios

  const CamposRequeridos := "Todos los campos son requeridos"
  const MuyCorta := "La nueva contraseña debe tener al menos 6 caracteres"
  const NoEncontradoOInactivo := "Usuario no encontrado o inactivo"
  const ActualIncorrecta := "La contraseña actual es incorrecta"
  const Actualizada := "Contraseña actualizada exitosamente"

  /** POST /api/usuarios/change-own-password. */
  method ChangeOwnPassword(accounts: Accounts, userId: Option<string>, currentPassword: Option<string>,
                           newPassword: Option<string>, compare: (string, string) -> bool, hash: string -> string)
    returns (reply: Reply)
    modifies accounts
    ensures !(Given(userId) && Given(currentPassword) && Given(newPassword)) ==> reply == Failure(400, CamposRequeridos)
    ensures Given(userId) && Given(currentPassword) && Given(newPassword) && |newPassword.value| < 6 ==>
      reply == Failure(400, MuyCorta)
    ensures Given(userId) && Given(currentPassword) && Given(newPassword) && |newPassword.value| >= 6 ==>
      reply == (if !(userId.value in old(accounts.rows) && old(accounts.rows)[userId.value].estado == "Activa")
                then Failure(404, NoEncontradoOInactivo)
                else if !compare(currentPassword.value, old(accounts.rows)[userId.value].contrasena)
                then Failure(400, ActualIncorrecta)
                else Success(Actualizada))
    ensures reply.Success? ==>
      accounts.rows == old(accounts.rows)[userId.value := old(accounts.rows)[userId.value].(contrasena := hash(newPassword.value))]
    ensures !reply.Success? ==> accounts.rows == old(accounts.rows)
    ensures old(accounts.Unique()) ==> accounts.Unique()
  {
    if !Given(userId) || !Given(currentPassword) || !Given(newPassword) {
      return Failure(400, CamposRequeridos);
    }
    if |newPassword.value| < 6 {
      return Failure(400, MuyCorta);
    }
    var id := userId.value;
    if !(id in accounts.rows && accounts.rows[id].estado == "Activa") {
      return Failure(404, NoEncontradoOInactivo);
    }
    if !compare(currentPassword.value, accounts.rows[id].contrasena) {
      return Failure(400, ActualIncorrecta);
    }
    accounts.rows := accounts.rows[id := accounts.rows[id].(contrasena := hash(newPassword.value))];
    reply := Success(Actualizada);
  }
}
