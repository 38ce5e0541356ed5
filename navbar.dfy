/** The navigation bar's login modal and its three-step password reset (e-mail, code,
    done). The login call and the reset requests are asynchronous: each reset request is
    split into the submit, which sends it, and the answer, which arrives later and may
    find the modal closed in the meantime. */
module Navbar {
  import opened Options
  import opened Text

  datatype Step = EmailStep | CodeStep | SuccessStep

  /** What the login call answers: success, a refusal with an optional message, or a
      thrown error. */
  datatype LoginOutcome = LoggedIn | Refused(error: Option<string>) | ConnectionError

  /** An answer of the reset endpoint: `ok`, and the body's `message` and `error` (the
      empty string when absent). A connection error or an unreadable body is `None`. */
  datatype Response = Response(ok: bool, message: string, error: string)

  datatype ResetRequest = SendCode(email: string) | ResetPassword(email: string, code: string, newPassword: string)

  datatype Toast = SuccessToast(text: string) | ErrorToast(text: string)

  /** Every field of the component's state, for stating what a handler leaves alone. */
  datatype NavState = NavState(
    showLoginModal: bool, showResetPassword: bool, resetStep: Step,
    username: string, password: string, error: string, isLoading: bool,
    email: string, code: string, newPassword: string, confirmPassword: string, resetLoading: bool)

  const NoCoinciden := "Las contraseñas no coinciden"
  const NoCumple := "La contraseña no cumple con los requisitos"
  const ErrorConexion := "Error de conexión"
  const ErrorLogin := "Error al iniciar sesión"
  const ErrorConexionLogin := "Error de conexión. Intente nuevamente."
  const ErrorEnvioCodigo := "Error al enviar el código"
  const ErrorRestablecer := "Error al restablecer la contraseña"

  // ---------------------------------------------------------------------------------
  // Password rules of the reset form

  predicate ValidLength(p: string) {
    8 <= |p| <= 100
  }

  predicate HasUppercase(p: string) {
    exists i :: 0 <= i < |p| && 'A' <= p[i] <= 'Z'
  }

  predicate HasDigit(p: string) {
    exists i :: 0 <= i < |p| && IsDigit(p[i])
  }

  /** The characters of the class `[!@#$%^&*(),.?":{}|<>]`. */
  const SpecialChars: set<char> := {'!', '@', '#', '$', '%', '^', '&', '*', '(', ')', ',', '.', '?', '"', ':', '{', '}', '|', '<', '>'}

  predicate HasSpecial(p: string) {
    exists i :: 0 <= i < |p| && p[i] in SpecialChars
  }

  /** `isPasswordValid`: all four requirements. */
  predicate IsPasswordValid(p: string) {
    ValidLength(p) && HasUppercase(p) && HasDigit(p) && HasSpecial(p)
  }

  /** The two checks of the code form, in order: the confirmation must match, then the
      password must meet the rules. */
  function CodeSubmitCheck(newPassword: string, confirmPassword: string): (r: Option<string>)
    ensures r.None? <==> newPassword == confirmPassword && IsPasswordValid(newPassword)
    ensures newPassword != confirmPassword ==> r == Some(NoCoinciden)
    ensures newPassword == confirmPassword && !IsPasswordValid(newPassword) ==> r == Some(NoCumple)
  {
    if newPassword != confirmPassword then Some(NoCoinciden)
    else if !IsPasswordValid(newPassword) then Some(NoCumple)
    else None
  }

  /** The toast an answer of the reset endpoint produces: the server's message on
      success, its error (or `fallback`) otherwise, and a connection error when there is
      no readable answer. */
  function AnswerToast(response: Option<Response>, fallback: string): (t: Toast)
    ensures t.SuccessToast? <==> response.Some? && response.value.ok
    ensures t.SuccessToast? ==> t.text == response.value.message
    ensures response.None? ==> t == ErrorToast(ErrorConexion)
    ensures response.Some? && !response.value.ok && response.value.error != "" ==> t == ErrorToast(response.value.error)
  {
    match response
    case None => ErrorToast(ErrorConexion)
    case Some(r) =>
      if r.ok then SuccessToast(r.message)
      else ErrorToast(if r.error != "" then r.error else fallback)
  }

  /** The error the login form shows after a call that did not succeed. */
  function LoginError(outcome: LoginOutcome): (e: string)
    requires !outcome.LoggedIn?
    ensures e != ""
    ensures outcome.Refused? && outcome.error.Some? && outcome.error.value != "" ==> e == outcome.error.value
  {
    match outcome
    case Refused(error) => if error.Some? && error.value != "" then error.value else ErrorLogin
    case ConnectionError => ErrorConexionLogin
  }

  class NavbarState {
    var showLoginModal: bool
    var showResetPassword: bool
    var resetStep: Step
    var username: string
    var password: string
    var error: string
    var isLoading: bool
    var email: string
    var code: string
    var newPassword: string
    var confirmPassword: string
    var resetLoading: bool

    function Snapshot(): NavState
      reads this
    {
      NavState(showLoginModal, showResetPassword, resetStep, username, password, error, isLoading,
               email, code, newPassword, confirmPassword, resetLoading)
    }

    /** The reset flow is at its first step whenever the reset view is hidden. */
    predicate HiddenResetAtEmail()
      reads this
    {
      !showResetPassword ==> resetStep == EmailStep
    }

    /** The initial state: everything closed and empty. */
    constructor ()
      ensures Snapshot() == NavState(false, false, EmailStep, "", "", "", false, "", "", "", "", false)
      ensures HiddenResetAtEmail()
    {
      showLoginModal, showResetPassword, resetStep := false, false, EmailStep;
      username, password, error, isLoading := "", "", "", false;
      email, code, newPassword, confirmPassword, resetLoading := "", "", "", "", false;
    }

    /** The login button opens the modal. */
    method OpenLogin()
      modifies this
      ensures Snapshot() == old(Snapshot()).(showLoginModal := true)
      ensures old(HiddenResetAtEmail()) ==> HiddenResetAtEmail()
    {
      showLoginModal := true;
    }

    /** `handleLogin`: on success the modal closes and the credentials and error are
        cleared; otherwise the modal stays open with the error set. */
    method HandleLogin(outcome: LoginOutcome)
      modifies this
      ensures outcome.LoggedIn? ==>
        Snapshot() == old(Snapshot()).(showLoginModal := false, username := "", password := "", error := "", isLoading := false)
      ensures !outcome.LoggedIn? ==> Snapshot() == old(Snapshot()).(error := LoginError(outcome), isLoading := false)
      ensures old(HiddenResetAtEmail()) ==> HiddenResetAtEmail()
    {
      isLoading := true;
      error := "";
      if outcome.LoggedIn? {
        showLoginModal := false;
        username := "";
        password := "";
        error := "";
      } else {
        error := LoginError(outcome);
      }
      isLoading := false;
    }

    /** "Forgot password" shows the reset view. */
    method HandleResetPasswordClick()
      modifies this
      ensures Snapshot() == old(Snapshot()).(showResetPassword := true)
      ensures old(HiddenResetAtEmail()) ==> HiddenResetAtEmail()
    {
      showResetPassword := true;
    }

    /** `handleCancelReset`: back to the login form at the first step, with the reset
        fields cleared. */
    method HandleCancelReset()
      modifies this
      ensures Snapshot() == old(Snapshot()).(showResetPassword := false, resetStep := EmailStep, email := "", code := "",
                                             newPassword := "", confirmPassword := "")
      ensures HiddenResetAtEmail()
    {
      showResetPassword, resetStep := false, EmailStep;
      email, code, newPassword, confirmPassword := "", "", "", "";
    }

    /** The e-mail form's submit: the code request goes out with the typed address. */
    method SubmitEmail() returns (request: ResetRequest)
      modifies this
      ensures request == SendCode(email)
      ensures Snapshot() == old(Snapshot()).(resetLoading := true)
      ensures old(HiddenResetAtEmail()) ==> HiddenResetAtEmail()
    {
      resetLoading := true;
      request := SendCode(email);
    }

    /** The answer to the code request: only an `ok` answer moves the flow to the code
        step; any other leaves the step as it was. */
    method EmailAnswered(response: Option<Response>) returns (toast: Toast)
      modifies this
      ensures toast == AnswerToast(response, ErrorEnvioCodigo)
      ensures response.Some? && response.value.ok ==> Snapshot() == old(Snapshot()).(resetStep := CodeStep, resetLoading := false)
      ensures !(response.Some? && response.value.ok) ==> Snapshot() == old(Snapshot()).(resetLoading := false)
    {
      toast := AnswerToast(response, ErrorEnvioCodigo);
      if response.Some? && response.value.ok {
        resetStep := CodeStep;
      }
      resetLoading := false;
    }

    /** `handleCodeSubmit`: a mismatch is refused first and a weak password second, and
        either way nothing is sent and nothing changes; otherwise the reset request goes
        out with the e-mail, the code and the new password. */
    method SubmitCode() returns (request: Option<ResetRequest>, toast: Option<Toast>)
      modifies this
      ensures CodeSubmitCheck(newPassword, confirmPassword).Some? ==>
        request.None? && toast == Some(ErrorToast(CodeSubmitCheck(newPassword, confirmPassword).value)) &&
        Snapshot() == old(Snapshot())
      ensures CodeSubmitCheck(newPassword, confirmPassword).None? ==>
        request == Some(ResetPassword(email, code, newPassword)) && toast.None? &&
        Snapshot() == old(Snapshot()).(resetLoading := true)
      ensures old(HiddenResetAtEmail()) ==> HiddenResetAtEmail()
    {
      var problem := CodeSubmitCheck(newPassword, confirmPassword);
      if problem.Some? {
        return None, Some(ErrorToast(problem.value));
      }
      resetLoading := true;
      request, toast := Some(ResetPassword(email, code, newPassword)), None;
    }

    /** The answer to the reset request: only an `ok` answer moves the flow to its last
        step. */
    method CodeAnswered(response: Option<Response>) returns (toast: Toast)
      modifies this
      ensures toast == AnswerToast(response, ErrorRestablecer)
      ensures response.Some? && response.value.ok ==> Snapshot() == old(Snapshot()).(resetStep := SuccessStep, resetLoading := false)
      ensures !(response.Some? && response.value.ok) ==> Snapshot() == old(Snapshot()).(resetLoading := false)
    {
      toast := AnswerToast(response, ErrorRestablecer);
      if response.Some? && response.value.ok {
        resetStep := SuccessStep;
      }
      resetLoading := false;
    }

    /** The code step's "Volver" button: back to the e-mail step, fields kept. */
    method BackToEmail()
      modifies this
      ensures Snapshot() == old(Snapshot()).(resetStep := EmailStep)
      ensures HiddenResetAtEmail()
    {
      resetStep := EmailStep;
    }

    /** `closeModal`: the modal and the reset view close, the flow returns to its first
        step, and the credentials, the error and the reset fields are cleared. */
    method CloseModal()
      modifies this
      ensures Snapshot() == NavState(false, false, EmailStep, "", "", "", old(isLoading), "", "", "", "", old(resetLoading))
      ensures HiddenResetAtEmail()
    {
      showLoginModal, showResetPassword, username, password, error := false, false, "", "", "";
      resetStep, email, code, newPassword, confirmPassword := EmailStep, "", "", "", "";
    }
  }

  /** The close button stays enabled while the code request is in flight: closing the
      modal and then receiving an `ok` answer leaves the hidden reset view at the code
      step, which is where "forgot password" reopens it. */
  method StaleAnswerReopensAtCode(nav: NavbarState, r: Response)
    requires r.ok
    modifies nav
    ensures !nav.showResetPassword && nav.resetStep == CodeStep && !nav.HiddenResetAtEmail()
  {
    var request := nav.SubmitEmail();
    nav.CloseModal();
    var toast := nav.EmailAnswered(Some(r));
  }
}
