/** The profile page: the password checks run before saving, the two requests a save
    sends (the profile update, then the password change), and cancelling an edit. The
    requests' answers are inputs; `None` is a connection error or an unreadable body. */
module Perfil {
  import opened Options
  import opened Http
  import Usuarios

  /** The signed-in user as the session holds it. */
  datatype SessionUser = SessionUser(id: string, nombre: string, rol: string, email: string)

  /** An answer: `ok`, and the body's `error` (the empty string when absent). */
  datatype Answer = Answer(ok: bool, error: string)

  datatype Request =
    | ProfileUpdate(body: Usuarios.UpdateRequest)
    | PasswordChange(userId: string, currentPassword: string, newPassword: string)

  datatype Toast = SuccessToast(text: string) | ErrorToast(text: string)

  datatype ProfileState = ProfileState(
    isEditing: bool, isUpdating: bool, showCurrentPassword: bool, showNewPassword: bool, showConfirmPassword: bool,
    email: string, currentPassword: string, newPassword: string, confirmPassword: string)

  const FaltaActual := "Debes ingresar tu contraseña actual"
  const FaltaNueva := "Debes ingresar una nueva contraseña"
  const MuyCorta := "La nueva contraseña debe tener al menos 6 caracteres"
  const NoCoinciden := "Las contraseñas no coinciden"
  const ErrorPerfil := "Error al actualizar perfil"
  const ErrorContrasena := "Error al cambiar contraseña"
  const ErrorConexion := "Error de conexión"
  const PerfilYContrasena := "Perfil y contraseña actualizados exitosamente"
  const SoloPerfil := "Perfil actualizado exitosamente"

  /** `validatePassword`: at least six characters. */
  predicate ValidatePassword(p: string) {
    |p| >= 6
  }

  /** `validatePasswordsMatch`: the confirmation repeats the new password and is not
      empty. */
  predicate PasswordsMatch(newPassword: string, confirmPassword: string) {
    newPassword == confirmPassword && |confirmPassword| > 0
  }

  /** A password change is requested when any of the three password fields is filled. */
  predicate ChangingPassword(currentPassword: string, newPassword: string, confirmPassword: string) {
    currentPassword != "" || newPassword != "" || confirmPassword != ""
  }

  /** The password checks of `handleSubmit`, in order; they run only when a change is
      requested. */
  function PasswordCheck(currentPassword: string, newPassword: string, confirmPassword: string): (r: Option<string>)
    ensures r.None? <==> !ChangingPassword(currentPassword, newPassword, confirmPassword) ||
                         (currentPassword != "" && ValidatePassword(newPassword) && PasswordsMatch(newPassword, confirmPassword))
    ensures ChangingPassword(currentPassword, newPassword, confirmPassword) && currentPassword == "" ==> r == Some(FaltaActual)
    ensures currentPassword != "" && newPassword == "" ==> r == Some(FaltaNueva)
    ensures currentPassword != "" && newPassword != "" && !ValidatePassword(newPassword) ==> r == Some(MuyCorta)
    ensures currentPassword != "" && ValidatePassword(newPassword) && !PasswordsMatch(newPassword, confirmPassword) ==>
      r == Some(NoCoinciden)
  {
    if !ChangingPassword(currentPassword, newPassword, confirmPassword) then None
    else if currentPassword == "" then Some(FaltaActual)
    else if newPassword == "" then Some(FaltaNueva)
    else if !ValidatePassword(newPassword) then Some(MuyCorta)
    else if !PasswordsMatch(newPassword, confirmPassword) then Some(NoCoinciden)
    else None
  }

  /** The body of the profile update as written: id, nombre, rol and estado "Activa";
      the edited e-mail is not sent. */
  function ProfileBody(user: SessionUser): (body: Usuarios.UpdateRequest)
    ensures body.id == Some(user.id) && body.nombre == Some(user.nombre) && body.rol == Some(user.rol)
    ensures body.estado == Some("Activa")
    ensures body.email.None? && body.rut.None? && body.idDireccion.None? && body.idArea.None?
  {
    Usuarios.UpdateRequest(Some(user.id), Some(user.nombre), None, Some(user.rol), Some("Activa"), None, None, None)
  }

  /** The accounts route refuses that body whatever the user: it requires e-mail, RUT,
      direccion and area, so every save of the profile page fails with 400 and the
      password change is never sent. */
  lemma ProfileSaveAlwaysRefused(user: SessionUser)
    ensures Usuarios.UpdateRejection(ProfileBody(user)) == Some(Usuarios.Failure(400, Usuarios.CamposRequeridos))
  {
  }

  /** The body the save evidently means to send: the profile with the edited e-mail and
      the account's stored RUT, direccion and area. */
  function CorrectedProfileBody(user: SessionUser, email: string, rut: string, idDireccion: string, idArea: string)
    : (body: Usuarios.UpdateRequest)
    ensures body.email == Some(email) && body.rut == Some(rut)
    ensures body.id == Some(user.id) && body.estado == Some("Activa")
  {
    Usuarios.UpdateRequest(Some(user.id), Some(user.nombre), Some(email), Some(user.rol), Some("Activa"), Some(rut),
                           Some(idDireccion), Some(idArea))
  }

  /** With every field present, a well-formed e-mail and a known role, the accounts route
      accepts the corrected body. */
  lemma CorrectedProfileBodyAccepted(user: SessionUser, email: string, rut: string, idDireccion: string, idArea: string)
    requires user.id != "" && user.nombre != "" && rut != "" && idDireccion != "" && idArea != ""
    requires Usuarios.MatchesEmailPattern(email) && user.rol in Usuarios.RolesValidos
    ensures Usuarios.UpdateRejection(CorrectedProfileBody(user, email, rut, idDireccion, idArea)).None?
  {
    var e := Usuarios.RolesValidos;
    assert "Activa" == Usuarios.EstadosValidos[0];
    assert email != "" by {
      var a, d :| 0 < a && a + 1 < d < |email| - 1 && email[a] == '@' && email[d] == '.' &&
        Usuarios.Plain(email[..a]) && Usuarios.Plain(email[a + 1..d]) && Usuarios.Plain(email[d + 1..]);
    }
  }

  /** The toast of a failed answer: the server's error, else the fallback; a connection
      error when there is no answer. */
  function FailureToast(answer: Option<Answer>, fallback: string): (t: Toast)
    requires !(answer.Some? && answer.value.ok)
    ensures t.ErrorToast?
    ensures answer.None? ==> t.text == ErrorConexion
    ensures answer.Some? && answer.value.error != "" ==> t.text == answer.value.error
    ensures answer.Some? && answer.value.error == "" ==> t.text == fallback
  {
    match answer
    case None => ErrorToast(ErrorConexion)
    case Some(a) => ErrorToast(if a.error != "" then a.error else fallback)
  }

  class ProfilePage {
    var isEditing: bool
    var isUpdating: bool
    var showCurrentPassword: bool
    var showNewPassword: bool
    var showConfirmPassword: bool
    var email: string
    var currentPassword: string
    var newPassword: string
    var confirmPassword: string

    function Snapshot(): ProfileState
      reads this
    {
      ProfileState(isEditing, isUpdating, showCurrentPassword, showNewPassword, showConfirmPassword,
                   email, currentPassword, newPassword, confirmPassword)
    }

    constructor ()
      ensures Snapshot() == ProfileState(false, false, false, false, false, "", "", "", "")
    {
      isEditing, isUpdating := false, false;
      showCurrentPassword, showNewPassword, showConfirmPassword := false, false, false;
      email, currentPassword, newPassword, confirmPassword := "", "", "", "";
    }

    /** `handleSubmit`. Nothing happens without a signed-in user. A failed password check
        sends nothing. Otherwise the profile update goes out first, and the password
        change only when one was requested and the profile update succeeded. A full
        success ends the edit and reloads the page. */
    method HandleSubmit(user: Option<SessionUser>, profileAnswer: Option<Answer>, passwordAnswer: Option<Answer>)
      returns (requests: seq<Request>, toast: Option<Toast>, reloaded: bool)
      modifies this
      ensures !(user.Some? && user.value.id != "") ==> requests == [] && toast.None? && !reloaded
      ensures user.Some? && user.value.id != "" && PasswordCheck(old(currentPassword), old(newPassword), old(confirmPassword)).Some? ==>
        requests == [] && !reloaded &&
        toast == Some(ErrorToast(PasswordCheck(old(currentPassword), old(newPassword), old(confirmPassword)).value))
      ensures requests != [] ==> requests[0] == ProfileUpdate(ProfileBody(user.value))
      ensures user.Some? && user.value.id != "" && PasswordCheck(old(currentPassword), old(newPassword), old(confirmPassword)).None? ==>
        |requests| >= 1
      ensures |requests| <= 2
      ensures |requests| == 2 <==>
        user.Some? && user.value.id != "" && PasswordCheck(old(currentPassword), old(newPassword), old(confirmPassword)).None? &&
        ChangingPassword(old(currentPassword), old(newPassword), old(confirmPassword)) &&
        profileAnswer.Some? && profileAnswer.value.ok
      ensures |requests| == 2 ==> requests[1] == PasswordChange(user.value.id, old(currentPassword), old(newPassword))
      ensures reloaded <==> |requests| > 0 && profileAnswer.Some? && profileAnswer.value.ok &&
                            (|requests| == 2 ==> passwordAnswer.Some? && passwordAnswer.value.ok)
      ensures reloaded ==> toast == Some(SuccessToast(if |requests| == 2 then PerfilYContrasena else SoloPerfil))
      ensures Snapshot() == old(Snapshot()).(isEditing := if reloaded then false else old(isEditing),
                                             isUpdating := if requests != [] then false else old(isUpdating))
    {
      requests, toast, reloaded := [], None, false;
      if user.None? || user.value.id == "" {
        return;
      }
      var check := PasswordCheck(currentPassword, newPassword, confirmPassword);
      if check.Some? {
        toast := Some(ErrorToast(check.value));
        return;
      }
      var changing := ChangingPassword(currentPassword, newPassword, confirmPassword);
      isUpdating := true;
      requests := [ProfileUpdate(ProfileBody(user.value))];
      if !(profileAnswer.Some? && profileAnswer.value.ok) {
        toast := Some(FailureToast(profileAnswer, ErrorPerfil));
      } else if changing {
        requests := requests + [PasswordChange(user.value.id, currentPassword, newPassword)];
        if !(passwordAnswer.Some? && passwordAnswer.value.ok) {
          toast := Some(FailureToast(passwordAnswer, ErrorContrasena));
        } else {
          toast := Some(SuccessToast(PerfilYContrasena));
          isEditing := false;
          reloaded := true;
        }
      } else {
        toast := Some(SuccessToast(SoloPerfil));
        isEditing := false;
        reloaded := true;
      }
      isUpdating := false;
    }

    /** `handleCancel`: the e-mail comes back from the user, the three password fields
        are blanked, and the edit and the three visibility toggles close. */
    method HandleCancel(user: Option<SessionUser>)
      modifies this
      ensures user.Some? ==>
        Snapshot() == old(Snapshot()).(email := user.value.email, currentPassword := "", newPassword := "", confirmPassword := "",
                                       isEditing := false, showCurrentPassword := false, showNewPassword := false,
                                       showConfirmPassword := false)
      ensures user.None? ==>
        Snapshot() == old(Snapshot()).(isEditing := false, showCurrentPassword := false, showNewPassword := false,
                                       showConfirmPassword := false)
    {
      if user.Some? {
        email, currentPassword, newPassword, confirmPassword := user.value.email, "", "", "";
      }
      isEditing := false;
      showCurrentPassword, showNewPassword, showConfirmPassword := false, false, false;
    }
  }
}
