/** The direccion table's routes: rows carry a sigla beside the name; GET has no gate;
    create and rename store `sigla || null`, so an empty or missing sigla is stored as
    null, and a rename always overwrites it. */
module Direcciones {
  import opened Options
  import opened Http
  import opened LookupTable
  import Database

  const DireccionWording := Wording(
    "Ya existe un direccion con este nombre", "direccion creada exitosamente",
    "Ya existe una direccion con este nombre", "direccion no encontrada", "direccion actualizada exitosamente",
    "ID de direccion es requerido", "direccion no encontrada", "direccion eliminada exitosamente", true)

  /** The direccion statements: the insert passes name and sigla, the update name, sigla
      and id. */
  const DireccionQueries := Statements(
    Stmt({"param1"}, 1), Stmt({"param1", "param2"}, 2), Stmt({"param1", "param2"}, 2),
    Stmt({"param1", "param2", "param3"}, 3), Stmt({"param1"}, 1))

  lemma DireccionQueriesRun()
    ensures AllRun(DireccionQueries)
  {
    Database.FirstNamesBound(1);
    Database.FirstNamesBound(2);
    Database.SecondNameBound(2);
    Database.FirstNamesBound(3);
    Database.SecondNameBound(3);
    assert Database.ParamName(2) == "param3";
  }

  /** `sigla || null`: the stored sigla is null exactly when the request's sigla is
      missing or empty, and the request's text otherwise. */
  function StoredSigla(sigla: Option<string>): (r: Option<string>)
    ensures r.None? <==> !Given(sigla)
    ensures r.Some? ==> r == sigla
  {
    if Given(sigla) then sigla else None
  }

  /** A rename that leaves out the sigla clears the stored one. */
  method RenameWithoutSigla(t: NameTable<Option<string>>, header: Option<string>, verify: string -> Option<UserPayload>,
                            id: string, nombre: string) returns (reply: Reply<Option<string>>)
    modifies t
    ensures reply.Success? ==> id in t.rows && t.rows[id].extra.None? && t.rows[id].nombre == nombre
    ensures reply.Success? <==>
      (AdminGate(header, verify).Pass? && id != "" && nombre != "" && !old(t.NameTaken(nombre, Some(id))) && id in old(t.rows))
  {
    DireccionQueriesRun();
    reply := t.Put(DireccionWording, DireccionQueries, header, verify, Some(id), Some(nombre), StoredSigla(None));
  }
}
