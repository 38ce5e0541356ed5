/** The create, rename and delete handlers shared by the lookup tables (cargo, direccion,
    ubicacion, unidad): each is an authorization gate, a chain of request checks, and at
    most one change to the table. A row is a name plus the columns a table adds to it
    (`Extra`: nothing for most tables, the sigla for direccion). Each statement a handler
    sends is described by its placeholders and the number of parameters passed with it;
    a statement with an unbound placeholder fails and the handler answers 500. */
module LookupTable {
  import opened Options
  import opened Http
  import Database

  datatype Row<Extra> = Row(nombre: string, extra: Extra)

  /** A statement: the placeholders in its text and how many parameters go with it. */
  datatype Stmt = Stmt(placeholders: set<string>, paramCount: nat)

  predicate StmtRuns(s: Stmt) {
    Database.Runs(s.placeholders, s.paramCount)
  }

  /** The statements of one route file, in the order the handlers send them. */
  datatype Statements = Statements(checkPost: Stmt, insert: Stmt, checkPut: Stmt, update: Stmt, delete: Stmt)

  /** The messages of one route file, which differ only in wording, and whether its
      DELETE reply carries `success: true`. */
  datatype Wording = Wording(
    duplicatePost: string, created: string, duplicatePut: string, notFoundPut: string, updated: string,
    idRequired: string, notFoundDelete: string, deleted: string, deleteSaysSuccess: bool)

  const NombreRequerido := "Nombre es requerido"
  const IdYNombreRequeridos := "ID y nombre son requeridos"

  /** A handler's reply: an error with its status, or a 200 whose body carries
      `success: true` when `success` holds. */
  datatype Reply<Extra> = Failure(status: nat, error: string) | Success(success: bool, message: string) | Listing(rows: map<string, Row<Extra>>)

  /** The statements of a route run when each of them has its placeholders bound. */
  predicate AllRun(s: Statements) {
    StmtRuns(s.checkPost) && StmtRuns(s.insert) && StmtRuns(s.checkPut) && StmtRuns(s.update) && StmtRuns(s.delete)
  }

  /** The statements of a table with a name column only, with `@param1`, `@param2` as
      the executor binds them (cargo, ubicacion). */
  const NameOnlyQueries := Statements(
    Stmt({"param1"}, 1), Stmt({"param1"}, 1), Stmt({"param1", "param2"}, 2), Stmt({"param1", "param2"}, 2), Stmt({"param1"}, 1))

  lemma NameOnlyQueriesRun()
    ensures AllRun(NameOnlyQueries)
  {
    Database.FirstNamesBound(1);
    Database.FirstNamesBound(2);
    Database.SecondNameBound(2);
  }

  /** Keeping a row's own name is never a conflict when names are unique. */
  lemma OwnNameAllowed<Extra>(t: NameTable<Extra>, id: string)
    requires t.NamesUnique() && id in t.rows
    ensures !t.NameTaken(t.rows[id].nombre, Some(id))
  {
  }

  class NameTable<Extra(==)> {
    /** The table: id to row. */
    var rows: map<string, Row<Extra>>

    /** No two rows share a name. */
    ghost predicate NamesUnique()
      reads this
    {
      forall a, b :: a in rows && b in rows && rows[a].nombre == rows[b].nombre ==> a == b
    }

    /** `SELECT COUNT(*) ... WHERE nombre = @param1 [AND id != @param2]` is positive. */
    predicate NameTaken(nombre: string, except: Option<string>)
      reads this
    {
      exists id :: id in rows && Some(id) != except && rows[id].nombre == nombre
    }

    constructor (initial: map<string, Row<Extra>>)
      ensures rows == initial
    {
      rows := initial;
    }

    /** GET without a gate: every row. */
    function List(): (r: Reply<Extra>)
      reads this
      ensures r.Listing? && r.rows.Keys == rows.Keys
      ensures forall id :: id in rows ==> r.rows[id] == rows[id]
    {
      Listing(rows)
    }

    /** GET behind the reader gate: every row, for a caller with any valid token. */
    function ListForReader(header: Option<string>, verify: string -> Option<UserPayload>): (r: Reply<Extra>)
      reads this
      ensures r.Listing? <==> ReaderGate(header, verify).Pass?
      ensures r.Listing? ==> r.rows == rows
      ensures !r.Listing? ==> r == Failure(401, ReaderGate(header, verify).error)
    {
      match ReaderGate(header, verify)
      case Deny(status, error) => Failure(status, error)
      case Pass(_) => Listing(rows)
    }

    /** POST: gate, required name, duplicate check, insert under the id the database
        generates (`freshId`). */
    method Post(w: Wording, s: Statements, header: Option<string>, verify: string -> Option<UserPayload>,
                nombre: Option<string>, extra: Extra, freshId: string) returns (reply: Reply<Extra>)
      requires freshId !in rows
      modifies this
      ensures AdminGate(header, verify).Deny? ==>
        reply == Failure(AdminGate(header, verify).status, AdminGate(header, verify).error)
      ensures AdminGate(header, verify).Pass? && !Given(nombre) ==> reply == Failure(400, NombreRequerido)
      ensures AdminGate(header, verify).Pass? && Given(nombre) && !StmtRuns(s.checkPost) ==> reply == Failure(500, ErrorInterno)
      ensures AdminGate(header, verify).Pass? && Given(nombre) && StmtRuns(s.checkPost) && old(NameTaken(nombre.value, None)) ==>
        reply == Failure(400, w.duplicatePost)
      ensures AdminGate(header, verify).Pass? && Given(nombre) && StmtRuns(s.checkPost) && !old(NameTaken(nombre.value, None)) ==>
        reply == (if StmtRuns(s.insert) then Success(true, w.created) else Failure(500, ErrorInterno))
      ensures reply.Success? ==> rows == old(rows)[freshId := Row(nombre.value, extra)]
      ensures !reply.Success? ==> rows == old(rows)
      ensures old(NamesUnique()) ==> NamesUnique()
    {
      var gate := AdminGate(header, verify);
      if gate.Deny? {
        return Failure(gate.status, gate.error);
      }
      if !Given(nombre) {
        return Failure(400, NombreRequerido);
      }
      if !StmtRuns(s.checkPost) {
        return Failure(500, ErrorInterno);
      }
      if NameTaken(nombre.value, None) {
        return Failure(400, w.duplicatePost);
      }
      if !StmtRuns(s.insert) {
        return Failure(500, ErrorInterno);
      }
      rows := rows[freshId := Row(nombre.value, extra)];
      reply := Success(true, w.created);
    }

    /** PUT: gate, required id and name, the name must not belong to another row, then
        the row with that id takes the new name and columns; 404 when there is none.
        Keeping the row's own name passes the check. */
    method Put(w: Wording, s: Statements, header: Option<string>, verify: string -> Option<UserPayload>,
               id: Option<string>, nombre: Option<string>, extra: Extra) returns (reply: Reply<Extra>)
      modifies this
      ensures AdminGate(header, verify).Deny? ==>
        reply == Failure(AdminGate(header, verify).status, AdminGate(header, verify).error)
      ensures AdminGate(header, verify).Pass? && !(Given(id) && Given(nombre)) ==> reply == Failure(400, IdYNombreRequeridos)
      ensures AdminGate(header, verify).Pass? && Given(id) && Given(nombre) && !StmtRuns(s.checkPut) ==> reply == Failure(500, ErrorInterno)
      ensures AdminGate(header, verify).Pass? && Given(id) && Given(nombre) && StmtRuns(s.checkPut) && old(NameTaken(nombre.value, id)) ==>
        reply == Failure(400, w.duplicatePut)
      ensures AdminGate(header, verify).Pass? && Given(id) && Given(nombre) && StmtRuns(s.checkPut) && !old(NameTaken(nombre.value, id)) ==>
        reply == (if !StmtRuns(s.update) then Failure(500, ErrorInterno)
                  else if id.value !in old(rows) then Failure(404, w.notFoundPut)
                  else Success(true, w.updated))
      ensures reply.Success? ==> rows == old(rows)[id.value := Row(nombre.value, extra)]
      ensures !reply.Success? ==> rows == old(rows)
      ensures old(NamesUnique()) ==> NamesUnique()
    {
      var gate := AdminGate(header, verify);
      if gate.Deny? {
        return Failure(gate.status, gate.error);
      }
      if !Given(id) || !Given(nombre) {
        return Failure(400, IdYNombreRequeridos);
      }
      if !StmtRuns(s.checkPut) {
        return Failure(500, ErrorInterno);
      }
      if NameTaken(nombre.value, id) {
        return Failure(400, w.duplicatePut);
      }
      if !StmtRuns(s.update) {
        return Failure(500, ErrorInterno);
      }
      if id.value !in rows {
        return Failure(404, w.notFoundPut);
      }
      rows := rows[id.value := Row(nombre.value, extra)];
      reply := Success(true, w.updated);
    }

    /** DELETE: gate, required id, then the row with that id goes; 404 when there is
        none. */
    method Delete(w: Wording, s: Statements, header: Option<string>, verify: string -> Option<UserPayload>,
                  id: Option<string>) returns (reply: Reply<Extra>)
      modifies this
      ensures AdminGate(header, verify).Deny? ==>
        reply == Failure(AdminGate(header, verify).status, AdminGate(header, verify).error)
      ensures AdminGate(header, verify).Pass? && !Given(id) ==> reply == Failure(400, w.idRequired)
      ensures AdminGate(header, verify).Pass? && Given(id) ==>
        reply == (if !StmtRuns(s.delete) then Failure(500, ErrorInterno)
                  else if id.value !in old(rows) then Failure(404, w.notFoundDelete)
                  else Success(w.deleteSaysSuccess, w.deleted))
      ensures reply.Success? ==> rows == old(rows) - {id.value}
      ensures !reply.Success? ==> rows == old(rows)
      ensures old(NamesUnique()) ==> NamesUnique()
    {
      var gate := AdminGate(header, verify);
      if gate.Deny? {
        return Failure(gate.status, gate.error);
      }
      if !Given(id) {
        return Failure(400, w.idRequired);
      }
      if !StmtRuns(s.delete) {
        return Failure(500, ErrorInterno);
      }
      if id.value !in rows {
        return Failure(404, w.notFoundDelete);
      }
      rows := rows - {id.value};
      reply := Success(w.deleteSaysSuccess, w.deleted);
    }
  }
}
