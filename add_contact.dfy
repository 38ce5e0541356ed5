/** The add-contact form: the validation that runs before submitting, and the updates the
    form's handlers make to its state (add, remove and edit a user, switch the line type,
    type a number, close). */
module AddContact {
  import opened Options
  import opened Text

  datatype Tipo = Fijo | Movil

  datatype Usuario = Usuario(nombre: string, cargo: string)

  datatype UsuarioField = NombreField | CargoField

  datatype FormData = FormData(numero: string, tipo: Tipo, direccion: string, unidad: string, ubicacion: string,
                               usuarios: seq<Usuario>)

  /** The error object; `usuarios` maps a user's index to its message (the sparse array
      `usuarioErrors`). `tipo` never gets an error, since the type is always one of two. */
  datatype FormErrors = FormErrors(numero: Option<string>, direccion: Option<string>, unidad: Option<string>,
                                   ubicacion: Option<string>, usuarios: Option<map<nat, string>>)

  datatype Modal = Modal(form: FormData, errors: FormErrors)

  const NoErrors := FormErrors(None, None, None, None, None)

  const BlankUsuario := Usuario("", "")

  /** The state the form opens with and returns to. */
  const InitialForm := FormData("", Fijo, "", "", "", [BlankUsuario])

  const NumeroRequerido := "El número es requerido"
  const MovilOchoDigitos := "El número móvil debe tener exactamente 8 dígitos"
  const FijoCuatroDigitos := "El número fijo debe tener exactamente 4 dígitos"
  const DireccionRequerida := "La dirección es requerida"
  const UnidadRequerida := "La unidad es requerida"
  const UbicacionRequerida := "La ubicación es requerida para números fijos"
  const NombreRequerido := "El nombre es requerido"
  const CargoRequerido := "El cargo es requerido para números móviles"

  /** Only whitespace: what `!s.trim()` tests (see `BlankIsEmptyTrim`). */
  predicate Blank(s: string) {
    AllWhitespace(s)
  }

  /** `Blank` holds exactly when trimming leaves nothing. */
  lemma BlankIsEmptyTrim(s: string)
    ensures Blank(s) <==> Trim(s) == []
  {
    BlankIffAllWhitespace(s);
  }

  /** The number of digits each line type needs. */
  function RequiredDigits(t: Tipo): nat {
    if t == Fijo then 4 else 8
  }

  /** The number's error: required, then exactly 8 digits for a mobile line and exactly 4
      for a fixed one, counting only the digits. */
  function NumeroError(t: Tipo, numero: string): (r: Option<string>)
    ensures r.None? <==> !Blank(numero) && |DigitsOnly(numero)| == RequiredDigits(t)
    ensures Blank(numero) ==> r == Some(NumeroRequerido)
  {
    if Blank(numero) then Some(NumeroRequerido)
    else if t == Movil && |DigitsOnly(numero)| != 8 then Some(MovilOchoDigitos)
    else if t == Fijo && |DigitsOnly(numero)| != 4 then Some(FijoCuatroDigitos)
    else None
  }

  /** A user's error: a blank name first, then, on a mobile line, a blank cargo. */
  function UsuarioError(t: Tipo, u: Usuario): (r: Option<string>)
    ensures r.None? <==> !Blank(u.nombre) && (t == Movil ==> !Blank(u.cargo))
    ensures Blank(u.nombre) ==> r == Some(NombreRequerido)
  {
    if Blank(u.nombre) then Some(NombreRequerido)
    else if t == Movil && Blank(u.cargo) then Some(CargoRequerido)
    else None
  }

  /** The per-user errors of the first `n` users. */
  function UsuarioErrors(t: Tipo, usuarios: seq<Usuario>, n: nat): map<nat, string>
    requires n <= |usuarios|
  {
    if n == 0 then map[]
    else
      var before := UsuarioErrors(t, usuarios, n - 1);
      match UsuarioError(t, usuarios[n - 1])
      case None => before
      case Some(e) => before[n - 1 := e]
  }

  /** Exactly the invalid users among the first `n` have a message, and it is theirs. */
  lemma {:induction false} UsuarioErrorsSpec(t: Tipo, usuarios: seq<Usuario>, n: nat)
    requires n <= |usuarios|
    ensures forall i: nat :: i in UsuarioErrors(t, usuarios, n) <==> i < n && UsuarioError(t, usuarios[i]).Some?
    ensures forall i: nat :: i in UsuarioErrors(t, usuarios, n) ==>
      UsuarioErrors(t, usuarios, n)[i] == UsuarioError(t, usuarios[i]).value
  {
    if n > 0 {
      UsuarioErrorsSpec(t, usuarios, n - 1);
    }
  }

  /** One more user adds its message, if any, under its index. */
  lemma UsuarioErrorsStep(t: Tipo, usuarios: seq<Usuario>, i: nat)
    requires i < |usuarios|
    ensures UsuarioErrors(t, usuarios, i + 1) ==
      if Blank(usuarios[i].nombre) then UsuarioErrors(t, usuarios, i)[i := NombreRequerido]
      else if t == Movil && Blank(usuarios[i].cargo) then UsuarioErrors(t, usuarios, i)[i := CargoRequerido]
      else UsuarioErrors(t, usuarios, i)
  {
  }

  /** The per-user pass of `validateForm`: a blank name, then on a mobile line a blank
      cargo, recorded under the user's index. */
  method CollectUsuarioErrors(t: Tipo, usuarios: seq<Usuario>) returns (usuarioErrors: map<nat, string>)
    ensures usuarioErrors == UsuarioErrors(t, usuarios, |usuarios|)
  {
    usuarioErrors := map[];
    var i := 0;
    while i < |usuarios|
      invariant i <= |usuarios|
      invariant usuarioErrors == UsuarioErrors(t, usuarios, i)
    {
      var u := usuarios[i];
      UsuarioErrorsStep(t, usuarios, i);
      if Blank(u.nombre) {
        usuarioErrors := usuarioErrors[i := NombreRequerido];
      } else if t == Movil && Blank(u.cargo) {
        usuarioErrors := usuarioErrors[i := CargoRequerido];
      }
      i := i + 1;
    }
  }

  /** Some user has an error exactly when the per-user map is not empty. */
  lemma UsuarioErrorsEmpty(t: Tipo, usuarios: seq<Usuario>)
    ensures UsuarioErrors(t, usuarios, |usuarios|) != map[] <==>
            exists i :: 0 <= i < |usuarios| && UsuarioError(t, usuarios[i]).Some?
  {
    var m := UsuarioErrors(t, usuarios, |usuarios|);
    UsuarioErrorsSpec(t, usuarios, |usuarios|);
    if m != map[] {
      var k :| k in m;
      assert k < |usuarios| && UsuarioError(t, usuarios[k]).Some?;
    } else {
      forall k | 0 <= k < |usuarios|
        ensures UsuarioError(t, usuarios[k]).None?
      {
        assert k !in m;
      }
    }
  }

  /** `validateForm`: collects one error per invalid field and one per invalid user, and
      says whether none was recorded. */
  method ValidateForm(f: FormData) returns (errors: FormErrors, valid: bool)
    ensures errors.numero == NumeroError(f.tipo, f.numero)
    ensures errors.direccion == (if Blank(f.direccion) then Some(DireccionRequerida) else None)
    ensures errors.unidad == (if Blank(f.unidad) then Some(UnidadRequerida) else None)
    ensures errors.ubicacion == (if f.tipo == Fijo && Blank(f.ubicacion) then Some(UbicacionRequerida) else None)
    ensures errors.usuarios.Some? <==> exists i :: 0 <= i < |f.usuarios| && UsuarioError(f.tipo, f.usuarios[i]).Some?
    ensures errors.usuarios.Some? ==> errors.usuarios.value == UsuarioErrors(f.tipo, f.usuarios, |f.usuarios|)
    ensures valid <==> errors == NoErrors
  {
    var numero := NumeroError(f.tipo, f.numero);
    var direccion := if Blank(f.direccion) then Some(DireccionRequerida) else None;
    var unidad := if Blank(f.unidad) then Some(UnidadRequerida) else None;
    var ubicacion := if f.tipo == Fijo && Blank(f.ubicacion) then Some(UbicacionRequerida) else None;
    var usuarioErrors := CollectUsuarioErrors(f.tipo, f.usuarios);
    UsuarioErrorsEmpty(f.tipo, f.usuarios);
    var usuarios := if usuarioErrors != map[] then Some(usuarioErrors) else None;
    errors := FormErrors(numero, direccion, unidad, ubicacion, usuarios);
    valid := errors == NoErrors;
  }

  /** The form is accepted exactly when the number has the digits its type needs, the
      direccion and unidad are filled in, a fixed line has an ubicacion, and every user
      has a name and, on a mobile line, a cargo. */
  predicate Acceptable(f: FormData) {
    !Blank(f.numero) && |DigitsOnly(f.numero)| == RequiredDigits(f.tipo) &&
    !Blank(f.direccion) && !Blank(f.unidad) && (f.tipo == Fijo ==> !Blank(f.ubicacion)) &&
    forall i :: 0 <= i < |f.usuarios| ==> !Blank(f.usuarios[i].nombre) && (f.tipo == Movil ==> !Blank(f.usuarios[i].cargo))
  }

  /** For a number typed into the field, which keeps only digits, the rule is simply
      "exactly 4 digits" for a fixed line and "exactly 8" for a mobile one. */
  lemma DigitNumeroRule(t: Tipo, numero: string)
    requires AllDigits(numero)
    ensures NumeroError(t, numero).None? <==> |numero| == RequiredDigits(t)
  {
    DigitsOnlyOfDigits(numero);
    if numero != [] {
      assert !IsWhitespace(numero[0]);
    }
  }

  /** The helper text under a fixed number promises 3 or 4 digits, but a 3-digit fixed
      number is refused. */
  lemma ThreeDigitFixedRefused(numero: string)
    requires AllDigits(numero) && |numero| == 3
    ensures NumeroError(Fijo, numero) == Some(FijoCuatroDigitos)
  {
    DigitsOnlyOfDigits(numero);
    assert !IsWhitespace(numero[0]);
  }

  /** The numero field's `onChange`: only the digits of what was typed are kept, and the
      number's error is cleared. The input's `maxLength` (4 on a fixed line, 8 otherwise)
      is the browser's, applied before the handler runs; `typed` is taken as given. */
  function NumeroChange(m: Modal, typed: string): (r: Modal)
    ensures AllDigits(r.form.numero) && r.errors.numero.None?
    ensures r.form == m.form.(numero := DigitsOnly(typed)) && r.errors == m.errors.(numero := None)
  {
    Modal(m.form.(numero := DigitsOnly(typed)), m.errors.(numero := None))
  }

  /** The three free-text inputs that go through `handleInputChange`. */
  datatype TextField = DireccionField | UnidadField | UbicacionField

  function FieldText(f: FormData, field: TextField): string {
    match field
    case DireccionField => f.direccion
    case UnidadField => f.unidad
    case UbicacionField => f.ubicacion
  }

  function FieldError(e: FormErrors, field: TextField): Option<string> {
    match field
    case DireccionField => e.direccion
    case UnidadField => e.unidad
    case UbicacionField => e.ubicacion
  }

  /** `handleInputChange` for direccion, unidad or ubicacion: the field takes the typed
      text as it is, and its error is cleared when it is a (truthy) message; every other
      field and error is kept. */
  function TextChange(m: Modal, field: TextField, value: string): (r: Modal)
    ensures FieldText(r.form, field) == value
    ensures FieldError(m.errors, field) != Some("") ==> FieldError(r.errors, field).None?
    ensures FieldError(m.errors, field) == Some("") ==> FieldError(r.errors, field) == Some("")
    ensures forall g :: g != field ==> FieldText(r.form, g) == FieldText(m.form, g) && FieldError(r.errors, g) == FieldError(m.errors, g)
    ensures r.form.numero == m.form.numero && r.form.tipo == m.form.tipo && r.form.usuarios == m.form.usuarios
    ensures r.errors.numero == m.errors.numero && r.errors.usuarios == m.errors.usuarios
  {
    var clear := FieldError(m.errors, field).Some? && FieldError(m.errors, field).value != "";
    match field
    case DireccionField =>
      Modal(m.form.(direccion := value), if clear then m.errors.(direccion := None) else m.errors)
    case UnidadField =>
      Modal(m.form.(unidad := value), if clear then m.errors.(unidad := None) else m.errors)
    case UbicacionField =>
      Modal(m.form.(ubicacion := value), if clear then m.errors.(ubicacion := None) else m.errors)
  }

  /** `addUsuario`: a blank user is appended on a fixed line; a mobile line keeps its one
      user. */
  function AddUsuario(f: FormData): (r: FormData)
    ensures f.tipo == Fijo ==> r.usuarios == f.usuarios + [BlankUsuario]
    ensures f.tipo == Movil ==> r == f
    ensures r == f.(usuarios := r.usuarios)
  {
    if f.tipo == Fijo then f.(usuarios := f.usuarios + [BlankUsuario]) else f
  }

  /** `filter((_, i) => i !== index)`. */
  function RemoveAt<T>(s: seq<T>, index: int): (r: seq<T>)
    ensures 0 <= index < |s| ==> |r| == |s| - 1
    ensures 0 <= index < |s| ==> forall j :: 0 <= j < index ==> r[j] == s[j]
    ensures 0 <= index < |s| ==> forall j :: index <= j < |r| ==> r[j] == s[j + 1]
    ensures !(0 <= index < |s|) ==> r == s
  {
    if 0 <= index < |s| then s[..index] + s[index + 1..] else s
  }

  /** `removeUsuario`: drops the user at `index` and keeps the rest in order, unless it is
      the only one. */
  function RemoveUsuario(f: FormData, index: int): (r: FormData)
    ensures |f.usuarios| <= 1 ==> r == f
    ensures |f.usuarios| > 1 ==> r == f.(usuarios := RemoveAt(f.usuarios, index))
  {
    if |f.usuarios| > 1 then f.(usuarios := RemoveAt(f.usuarios, index)) else f
  }

  /** Removing the user just added restores the form. */
  lemma AddThenRemove(f: FormData)
    requires f.tipo == Fijo && |f.usuarios| >= 1
    ensures RemoveUsuario(AddUsuario(f), |f.usuarios|) == f
  {
    assert RemoveAt(f.usuarios + [BlankUsuario], |f.usuarios|) == f.usuarios;
  }

  /** `handleTipoChange`: the new type, an empty number, a single blank user, and an empty
      ubicacion when switching to mobile; direccion and unidad are kept. */
  function TipoChange(f: FormData, t: Tipo): (r: FormData)
    ensures r.tipo == t && r.numero == "" && r.usuarios == [BlankUsuario]
    ensures r.ubicacion == (if t == Movil then "" else f.ubicacion)
    ensures r.direccion == f.direccion && r.unidad == f.unidad
  {
    f.(tipo := t, numero := "", usuarios := [BlankUsuario], ubicacion := if t == Movil then "" else f.ubicacion)
  }

  /** `handleUsuarioChange`: one field of one user changes, and that user's error, if it
      had one, is blanked. */
  function UsuarioChange(m: Modal, index: nat, field: UsuarioField, value: string): (r: Modal)
    requires index < |m.form.usuarios|
    ensures |r.form.usuarios| == |m.form.usuarios|
    ensures forall j :: 0 <= j < |m.form.usuarios| && j != index ==> r.form.usuarios[j] == m.form.usuarios[j]
    ensures r.form.usuarios[index] == (if field == NombreField then m.form.usuarios[index].(nombre := value)
                                       else m.form.usuarios[index].(cargo := value))
    ensures r.form == m.form.(usuarios := r.form.usuarios)
    ensures r.errors.usuarios.Some? && index in r.errors.usuarios.value ==> r.errors.usuarios.value[index] == ""
    ensures r.errors == m.errors.(usuarios := r.errors.usuarios)
  {
    var u := m.form.usuarios[index];
    var u' := if field == NombreField then u.(nombre := value) else u.(cargo := value);
    var errors :=
      if m.errors.usuarios.Some? && index in m.errors.usuarios.value && m.errors.usuarios.value[index] != "" then
        m.errors.(usuarios := Some(m.errors.usuarios.value[index := ""]))
      else m.errors;
    Modal(m.form.(usuarios := m.form.usuarios[index := u']), errors)
  }

  /** `handleClose`: the initial form and no errors. */
  function Close(): (r: Modal)
    ensures r.form.usuarios == [BlankUsuario] && r.form.tipo == Fijo && r.errors == NoErrors
    ensures r.form.numero == "" && r.form.direccion == "" && r.form.unidad == "" && r.form.ubicacion == ""
  {
    Modal(InitialForm, NoErrors)
  }

  /** The shape every reachable form has: at least one user, and exactly one on a mobile
      line. */
  predicate WellShaped(f: FormData) {
    |f.usuarios| >= 1 && (f.tipo == Movil ==> |f.usuarios| == 1)
  }

  /** The handlers keep the form well shaped. */
  lemma HandlersKeepShape(m: Modal, t: Tipo, index: int, field: UsuarioField, value: string, typed: string, text: TextField)
    requires WellShaped(m.form)
    ensures WellShaped(Close().form)
    ensures WellShaped(AddUsuario(m.form)) && WellShaped(RemoveUsuario(m.form, index)) && WellShaped(TipoChange(m.form, t))
    ensures WellShaped(NumeroChange(m, typed).form) && WellShaped(TextChange(m, text, value).form)
    ensures 0 <= index < |m.form.usuarios| ==> WellShaped(UsuarioChange(m, index, field, value).form)
  {
  }

  /** The add button is shown only on a fixed line with fewer than five users. */
  predicate AddButtonShown(f: FormData) {
    f.tipo == Fijo && |f.usuarios| < 5
  }

  /** The five-user cap holds only because the button hides: `addUsuario` itself appends
      a sixth user to a fixed line that has five. */
  lemma CapOnlyInButton(f: FormData)
    requires f.tipo == Fijo && |f.usuarios| == 5
    ensures !AddButtonShown(f)
    ensures |AddUsuario(f).usuarios| == 6
  {
  }
}
