/** The unidad table's routes. GET is behind the reader gate and the handlers have the
    shared checks, but the statements use named placeholders (`@unidad`, `@nombre`,
    `@id`) while the executor binds parameters only as `@param1`, `@param2`, ...; none
    of the statements after the request checks can run. */
module Unidades {
  import opened Options
  import opened Http
  import opened LookupTable
  import Database

  const UnidadWording := Wording(
    "Ya existe un unidad con este nombre", "Unidad creada exitosamente",
    "Ya existe una unidad con este nombre", "Unidad no encontrada", "Unidad actualizada exitosamente",
    "ID de unidad es requerido", "Unidad no encontrada", "Unidad eliminada exitosamente", true)

  /** The statements as the route file writes them. */
  const WrittenQueries := Statements(
    Stmt({"unidad"}, 1), Stmt({"nombre"}, 1), Stmt({"nombre", "id"}, 2), Stmt({"nombre", "id"}, 2), Stmt({"id"}, 1))

  /** The statements with the placeholders the executor binds, as in the other tables. */
  const CorrectedQueries := NameOnlyQueries

  /** No statement of the unidad routes has its placeholders bound. */
  lemma WrittenQueriesNeverRun()
    ensures !StmtRuns(WrittenQueries.checkPost) && !StmtRuns(WrittenQueries.insert)
    ensures !StmtRuns(WrittenQueries.checkPut) && !StmtRuns(WrittenQueries.update)
    ensures !StmtRuns(WrittenQueries.delete)
  {
    assert "unidad"[..5][0] != "param"[0] && "nombre"[..5][0] != "param"[0];
    Database.NeverBound("unidad", 1);
    Database.NeverBound("nombre", 1);
    Database.NeverBound("nombre", 2);
    Database.NeverBound("id", 1);
  }

  /** With the executor's placeholder names every statement runs. */
  lemma CorrectedQueriesRun()
    ensures AllRun(CorrectedQueries)
  {
    NameOnlyQueriesRun();
  }

  /** POST as written: an authorised request with a name gets 500 and nothing is
      inserted. */
  method Post(t: NameTable<()>, header: Option<string>, verify: string -> Option<UserPayload>,
              nombre: Option<string>, freshId: string) returns (reply: Reply<()>)
    requires freshId !in t.rows
    modifies t
    ensures AdminGate(header, verify).Pass? && Given(nombre) ==> reply == Failure(500, ErrorInterno)
    ensures !(AdminGate(header, verify).Pass? && Given(nombre)) ==> reply.Failure? && reply.status in {400, 401, 403}
    ensures t.rows == old(t.rows)
  {
    WrittenQueriesNeverRun();
    reply := t.Post(UnidadWording, WrittenQueries, header, verify, nombre, (), freshId);
  }

  /** PUT as written: an authorised request with id and name gets 500 and nothing
      changes. */
  method Put(t: NameTable<()>, header: Option<string>, verify: string -> Option<UserPayload>,
             id: Option<string>, nombre: Option<string>) returns (reply: Reply<()>)
    modifies t
    ensures AdminGate(header, verify).Pass? && Given(id) && Given(nombre) ==> reply == Failure(500, ErrorInterno)
    ensures !(AdminGate(header, verify).Pass? && Given(id) && Given(nombre)) ==> reply.Failure? && reply.status in {400, 401, 403}
    ensures t.rows == old(t.rows)
  {
    WrittenQueriesNeverRun();
    reply := t.Put(UnidadWording, WrittenQueries, header, verify, id, nombre, ());
  }

  /** DELETE as written: an authorised request with an id gets 500 and nothing is
      removed. */
  method Delete(t: NameTable<()>, header: Option<string>, verify: string -> Option<UserPayload>,
                id: Option<string>) returns (reply: Reply<()>)
    modifies t
    ensures AdminGate(header, verify).Pass? && Given(id) ==> reply == Failure(500, ErrorInterno)
    ensures !(AdminGate(header, verify).Pass? && Given(id)) ==> reply.Failure? && reply.status in {400, 401, 403}
    ensures t.rows == old(t.rows)
  {
    WrittenQueriesNeverRun();
    reply := t.Delete(UnidadWording, WrittenQueries, header, verify, id);
  }
}
