/** The four administration lists (cargos, direcciones, ubicaciones, unidades) share one
    page design: a name search over the list and an edit dialog with a single `nombre`
    field. */
module AdminLists {
  import opened Options
  import opened Text
  import Filtering

  /** A row of one of the lists. */
  datatype NamedItem = NamedItem(id: string, nombre: string)

  /** The body of the `PUT` request the edit dialog sends: `{ id, ...editFormData }`. */
  datatype EditRequest = EditRequest(id: string, nombre: string)

  /** `item.nombre.toLowerCase().includes(searchTerm.toLowerCase())`; `lower` is the
      per-character table of `toLowerCase`, left abstract. */
  predicate NameContains(lower: char -> string, term: string, item: NamedItem) {
    Contains(MapChars(lower, item.nombre), MapChars(lower, term))
  }

  function NameMatches(lower: char -> string, term: string): NamedItem -> bool {
    item => NameContains(lower, term, item)
  }

  /** The memoised filter of each page: a blank term shows the whole list, any other
      term (untrimmed) filters by name. */
  function FilterByName(lower: char -> string, items: seq<NamedItem>, term: string): seq<NamedItem> {
    if Trim(term) == [] then items else Filtering.Filter(items, NameMatches(lower, term))
  }

  /** A term that is empty or only whitespace shows every item; any other term shows
      exactly the items whose lower-cased name contains the lower-cased term, in list
      order. */
  lemma FilterByNameSpec(lower: char -> string, items: seq<NamedItem>, term: string)
    ensures AllWhitespace(term) ==> FilterByName(lower, items, term) == items
    ensures !AllWhitespace(term) ==> forall x :: x in FilterByName(lower, items, term) <==>
      x in items && NameContains(lower, term, x)
    ensures Filtering.IsSubsequence(FilterByName(lower, items, term), items)
  {
    BlankIffAllWhitespace(term);
    if AllWhitespace(term) {
      Filtering.SubsequenceOfSelf(items);
    } else {
      Filtering.FilterMembers(items, NameMatches(lower, term));
      Filtering.FilterIsSubsequence(items, NameMatches(lower, term));
    }
  }

  const NombreRequerido := "El nombre es requerido"

  /** The edit dialog's state: whether it is open, the selected row, the form's
      `nombre` and the form's error for it. */
  class EditDialog {
    var open: bool
    var selected: Option<NamedItem>
    var nombre: string
    var nombreError: Option<string>

    constructor ()
      ensures !open && selected == None && nombre == "" && nombreError == None
    {
      open, selected, nombre, nombreError := false, None, "", None;
    }

    /** `handleEdit`: select the row, seed the form with its name, clear the errors and
        open the dialog. */
    method HandleEdit(item: NamedItem)
      modifies this
      ensures open && selected == Some(item) && nombre == item.nombre && nombreError == None
    {
      selected := Some(item);
      nombre := item.nombre;
      nombreError := None;
      open := true;
    }

    /** The `nombre` input's `onChange`. */
    method ChangeNombre(value: string)
      modifies this
      ensures nombre == value
      ensures open == old(open) && selected == old(selected) && nombreError == old(nombreError)
    {
      nombre := value;
    }

    /** `validateEditForm`: the form is valid exactly when `nombre` has a character that
        is not whitespace; the error is set or cleared to match. */
    method ValidateEditForm() returns (valid: bool)
      modifies this
      ensures valid <==> !AllWhitespace(nombre)
      ensures nombreError == if valid then None else Some(NombreRequerido)
      ensures open == old(open) && selected == old(selected) && nombre == old(nombre)
    {
      BlankIffAllWhitespace(nombre);
      if Trim(nombre) == [] {
        nombreError := Some(NombreRequerido);
      } else {
        nombreError := None;
      }
      valid := nombreError == None;
    }

    /** `handleEditSubmit` up to the request: nothing is sent when the form is invalid or
        no row is selected; otherwise the body is the selected id and the form. */
    method SubmitEdit() returns (request: Option<EditRequest>)
      modifies this
      ensures request.Some? <==> !AllWhitespace(nombre) && selected.Some?
      ensures request.Some? ==> request.value == EditRequest(selected.value.id, nombre)
      ensures nombreError == if AllWhitespace(nombre) then Some(NombreRequerido) else None
      ensures open == old(open) && selected == old(selected) && nombre == old(nombre)
    {
      var valid := ValidateEditForm();
      if !valid || selected.None? {
        return None;
      }
      request := Some(EditRequest(selected.value.id, nombre));
    }

    /** The answer to the `PUT`: a success closes the dialog; a failure leaves it open. */
    method EditAnswered(ok: bool)
      modifies this
      ensures open == (old(open) && !ok)
      ensures selected == old(selected) && nombre == old(nombre) && nombreError == old(nombreError)
    {
      if ok {
        open := false;
      }
    }

    /** `closeEditModal`: close, clear the selection, reset `nombre` and the errors. */
    method CloseEditModal()
      modifies this
      ensures !open && selected == None && nombre == "" && nombreError == None
    {
      open := false;
      selected := None;
      nombre := "";
      nombreError := None;
    }
  }
}
