/** The accounts administration panel: the search over the account list, the role and
    status badges, and the edit form. */
module UsersPanel {
  import opened Options
  import opened Text
  import Filtering
  import Usuarios

  datatype User = User(id: string, nombre: string, email: string, rol: string, estado: string, usuario: string)

  /** The lower-cased search term occurs in the lower-cased nombre, email, usuario or rol.
      `lower` is the per-character table of `toLowerCase`, left abstract. */
  predicate UserMatches(lower: char -> string, term: string, u: User) {
    var t := MapChars(lower, term);
    || Contains(MapChars(lower, u.nombre), t)
    || Contains(MapChars(lower, u.email), t)
    || Contains(MapChars(lower, u.usuario), t)
    || Contains(MapChars(lower, u.rol), t)
  }

  function UserMatchesTerm(lower: char -> string, term: string): User -> bool {
    u => UserMatches(lower, term, u)
  }

  /** `filteredUsers`: the term is not trimmed. */
  function FilteredUsers(lower: char -> string, users: seq<User>, term: string): seq<User> {
    Filtering.Filter(users, UserMatchesTerm(lower, term))
  }

  /** An account is listed exactly when it matches, and the list keeps the accounts'
      order without adding or repeating any. */
  lemma FilteredUsersSpec(lower: char -> string, users: seq<User>, term: string)
    ensures forall u :: u in FilteredUsers(lower, users, term) <==> u in users && UserMatches(lower, term, u)
    ensures Filtering.IsSubsequence(FilteredUsers(lower, users, term), users)
  {
    Filtering.FilterMembers(users, UserMatchesTerm(lower, term));
    Filtering.FilterIsSubsequence(users, UserMatchesTerm(lower, term));
  }

  /** A search term of one space still filters: an account none of whose four fields
      contains a space (once lower-cased) is hidden. */
  lemma SpaceTermFilters(lower: char -> string, u: User)
    requires lower(' ') == " "
    requires ' ' !in MapChars(lower, u.nombre) && ' ' !in MapChars(lower, u.email)
    requires ' ' !in MapChars(lower, u.usuario) && ' ' !in MapChars(lower, u.rol)
    ensures FilteredUsers(lower, [u], " ") == []
  {
    assert MapChars(lower, " ") == " " by {
      assert " "[1..] == [];
    }
    forall s: string | ' ' !in s
      ensures !Contains(s, " ")
    {
      ContainsIffOccurs(s, " ");
    }
    assert !UserMatches(lower, " ", u);
    assert [u][1..] == [];
  }

  const Gray := "bg-gray-100 text-gray-800"
  const Roles: set<string> := {"Administrador", "Supervisor", "Editor", "Revisor"}
  const Statuses: set<string> := {"Activa", "Desactivada", "Suspendida"}

  /** `getRoleColor`. */
  function RoleColor(role: string): (r: string)
    ensures r == Gray <==> role !in Roles
  {
    match role
    case "Administrador" => "bg-purple-100 text-purple-800"
    case "Supervisor" => "bg-red-100 text-red-800"
    case "Editor" => "bg-green-100 text-green-800"
    case "Revisor" => "bg-blue-100 text-blue-800"
    case _ => Gray
  }

  /** `getStatusColor`. */
  function StatusColor(status: string): (r: string)
    ensures r == Gray <==> status !in Statuses
  {
    match status
    case "Activa" => "bg-green-100 text-green-800"
    case "Desactivada" => "bg-red-100 text-red-800"
    case "Suspendida" => "bg-yellow-100 text-yellow-800"
    case _ => Gray
  }

  /** The four roles get four different badges, and so do the three statuses. */
  lemma BadgesDistinct(a: string, b: string)
    ensures (a in Roles && b in Roles && a != b) ==> RoleColor(a) != RoleColor(b)
    ensures (a in Statuses && b in Statuses && a != b) ==> StatusColor(a) != StatusColor(b)
  {
  }

  /** The names of the edit form's inputs. */
  const EditFields: set<string> := {"nombre", "email", "rol", "estado"}

  /** The edit dialog's state. The form is an object keyed by input name, as in the
      source, so that the handler's computed key is modelled as it is. */
  class UsersPage {
    var showEditModal: bool
    var selectedUser: Option<User>
    var editFormData: map<string, string>

    /** The form holds the four edited fields, possibly more under other input names,
        and never a field named "rut". */
    ghost predicate Valid()
      reads this
    {
      EditFields <= editFormData.Keys && "rut" !in editFormData.Keys
    }

    constructor ()
      ensures Valid() && !showEditModal && selectedUser == None
      ensures editFormData == map["nombre" := "", "email" := "", "rol" := "", "estado" := ""]
    {
      showEditModal := false;
      selectedUser := None;
      editFormData := map["nombre" := "", "email" := "", "rol" := "", "estado" := ""];
    }

    /** `handleEditUser`: select the account and copy its four editable fields. */
    method HandleEditUser(u: User)
      modifies this
      ensures Valid() && showEditModal && selectedUser == Some(u)
      ensures editFormData == map["nombre" := u.nombre, "email" := u.email, "rol" := u.rol, "estado" := u.estado]
    {
      selectedUser := Some(u);
      editFormData := map["nombre" := u.nombre, "email" := u.email, "rol" := u.rol, "estado" := u.estado];
      showEditModal := true;
    }

    /** `handleEditInputChange`: the field under the input's name takes the value, unless
        the name is "rut", which is never written; every other field keeps its value. */
    method HandleEditInputChange(name: string, value: string)
      requires Valid()
      modifies this
      ensures Valid()
      ensures name != "rut" ==> editFormData == old(editFormData)[name := value]
      ensures name == "rut" ==> editFormData == old(editFormData)
      ensures showEditModal == old(showEditModal) && selectedUser == old(selectedUser)
    {
      if name != "rut" {
        editFormData := editFormData[name := value];
      }
    }

    /** The body of the `PUT` sent by `handleUpdateUser`: `{ id, ...editFormData }`; a
        form field named "id" would override the selected account's id. */
    function EditBody(): (body: map<string, string>)
      requires Valid() && selectedUser.Some?
      reads this
      ensures body.Keys == {"id"} + editFormData.Keys
      ensures "id" !in editFormData ==> body["id"] == selectedUser.value.id
      ensures forall k :: k in editFormData ==> body[k] == editFormData[k]
      ensures "rut" !in body
    {
      map["id" := selectedUser.value.id] + editFormData
    }

    /** The answer to the `PUT`: a success closes the dialog and clears the selection. */
    method UpdateAnswered(ok: bool)
      modifies this
      ensures ok ==> !showEditModal && selectedUser == None
      ensures !ok ==> showEditModal == old(showEditModal) && selectedUser == old(selectedUser)
      ensures editFormData == old(editFormData)
    {
      if ok {
        showEditModal := false;
        selectedUser := None;
      }
    }

    /** `handleCloseEditModal`: the dialog closes, the selection is cleared and the form
        goes back to four empty fields. */
    method CloseEditModal()
      modifies this
      ensures Valid() && !showEditModal && selectedUser == None
      ensures editFormData == map["nombre" := "", "email" := "", "rol" := "", "estado" := ""]
    {
      showEditModal := false;
      selectedUser := None;
      editFormData := map["nombre" := "", "email" := "", "rol" := "", "estado" := ""];
    }
  }

  /** How the accounts route reads a JSON body: a key the body lacks is undefined. */
  function Field(body: map<string, string>, key: string): Option<string> {
    if key in body then Some(body[key]) else None
  }

  function RequestOf(body: map<string, string>): Usuarios.UpdateRequest {
    Usuarios.UpdateRequest(Field(body, "id"), Field(body, "nombre"), Field(body, "email"), Field(body, "rol"),
                           Field(body, "estado"), Field(body, "rut"), Field(body, "id_direccion"), Field(body, "id_area"))
  }

  /** The edit form never sends RUT, direccion or area, which the accounts route
      requires: every save of the dialog is refused with 400. */
  lemma EditSaveAlwaysRefused(page: UsersPage)
    requires page.Valid() && page.selectedUser.Some?
    ensures Usuarios.UpdateRejection(RequestOf(page.EditBody())) == Some(Usuarios.Failure(400, Usuarios.CamposRequeridos))
  {
    assert Field(page.EditBody(), "rut") == None;
  }

  /** The body the save evidently means to send: the edit body plus the account's
      stored RUT, direccion and area. */
  function CorrectedEditBody(page: UsersPage, rut: string, idDireccion: string, idArea: string): (body: map<string, string>)
    requires page.Valid() && page.selectedUser.Some?
    reads page
    ensures body.Keys == {"id", "rut", "id_direccion", "id_area"} + page.editFormData.Keys
    ensures forall k :: k in page.EditBody() && k !in {"rut", "id_direccion", "id_area"} ==> body[k] == page.EditBody()[k]
    ensures body["rut"] == rut && body["id_direccion"] == idDireccion && body["id_area"] == idArea
  {
    page.EditBody()["rut" := rut]["id_direccion" := idDireccion]["id_area" := idArea]
  }

  /** With every field filled in, a well-formed e-mail, a known role and a known status,
      the accounts route accepts the corrected body. */
  lemma CorrectedEditAccepted(page: UsersPage, rut: string, idDireccion: string, idArea: string)
    requires page.Valid() && page.selectedUser.Some?
    requires page.EditBody()["id"] != "" && rut != "" && idDireccion != "" && idArea != ""
    requires forall k :: k in EditFields ==> page.editFormData[k] != ""
    requires Usuarios.MatchesEmailPattern(page.editFormData["email"])
    requires page.editFormData["rol"] in Usuarios.RolesValidos && page.editFormData["estado"] in Usuarios.EstadosValidos
    ensures Usuarios.UpdateRejection(RequestOf(CorrectedEditBody(page, rut, idDireccion, idArea))).None?
  {
    var body := CorrectedEditBody(page, rut, idDireccion, idArea);
    assert body["nombre"] == page.editFormData["nombre"];
    assert body["email"] == page.editFormData["email"];
    assert body["rol"] == page.editFormData["rol"];
    assert body["estado"] == page.editFormData["estado"];
  }
}
