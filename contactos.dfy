/** The directory read model served by `GET /api/contactos`: the joined rows of the
    number/user query are folded into one contact per number id, with the users after the
    first one listed as additional contacts. */
module Contactos {
  import opened Options

  /** One row of the directory query: a number left-joined with one of its users.
      Columns that may be NULL are options. */
  datatype JoinRow = JoinRow(
    id: int, numero: string, tipo: string,
    direccion: Option<string>, unidad: Option<string>, ubicacion: Option<string>,
    nombre: Option<string>, cargo: Option<string>)

  datatype Additional = Additional(
    nombre: string, unidad: string, cargo: string, direccion: string, ubicacion: string)

  datatype Contact = Contact(
    id: int, anexo: string, numero: string, tipo: string, nombre: string,
    direccion: string, unidad: string, cargo: string, ubicacion: string,
    additionalContacts: seq<Additional>)

  /** `value || ""` for a nullable text column. */
  function OrEmpty(v: Option<string>): string {
    if v.Some? then v.value else ""
  }

  /** JavaScript truthiness of a nullable text column. */
  predicate Present(v: Option<string>) {
    v.Some? && v.value != ""
  }

  /** The contact built from the first row seen for an id. Both branches of the `numero`
      conditional are the same column. */
  function Primary(r: JoinRow): Contact {
    Contact(r.id,
      if r.tipo == "Fijo" then r.numero else "",
      if r.tipo == "Movil" then r.numero else r.numero,
      r.tipo, OrEmpty(r.nombre), OrEmpty(r.direccion), OrEmpty(r.unidad),
      OrEmpty(r.cargo), OrEmpty(r.ubicacion), [])
  }

  /** The additional contact a later row contributes. */
  function AdditionalOf(r: JoinRow): Additional {
    Additional(OrEmpty(r.nombre), OrEmpty(r.unidad), OrEmpty(r.cargo),
      OrEmpty(r.direccion), OrEmpty(r.ubicacion))
  }

  predicate Appears(rows: seq<JoinRow>, id: int) {
    exists i :: 0 <= i < |rows| && rows[i].id == id
  }

  /** The position of the first row for `id`. */
  function FirstIndex(rows: seq<JoinRow>, id: int): (k: nat)
    requires Appears(rows, id)
    ensures k < |rows| && rows[k].id == id
    ensures forall j :: 0 <= j < k ==> rows[j].id != id
  {
    if rows[0].id == id then 0
    else
      assert Appears(rows[1..], id) by {
        var i :| 0 <= i < |rows| && rows[i].id == id;
        assert rows[1..][i - 1].id == id;
      }
      1 + FirstIndex(rows[1..], id)
  }

  /** A later row for the same id is an additional contact when its nombre is present
      and differs from the primary nombre. */
  predicate IsExtra(r: JoinRow, id: int, primaryNombre: string) {
    r.id == id && Present(r.nombre) && r.nombre.value != primaryNombre
  }

  /** The additional contacts that the rows `rs` contribute to contact `id`, in row order. */
  function Extras(rs: seq<JoinRow>, id: int, primaryNombre: string): seq<Additional>
    decreases |rs|
  {
    if rs == [] then []
    else
      var last := rs[|rs| - 1];
      Extras(rs[..|rs| - 1], id, primaryNombre)
        + (if IsExtra(last, id, primaryNombre) then [AdditionalOf(last)] else [])
  }

  /** Reference definition of the contact the read model returns for `id`: the primary
      fields of the first row for that id, and the extras among the rows after it. */
  function ContactFor(rows: seq<JoinRow>, id: int): Contact
    requires Appears(rows, id)
  {
    var k := FirstIndex(rows, id);
    var p := Primary(rows[k]);
    p.(additionalContacts := Extras(rows[k + 1..], id, p.nombre))
  }

  /** The distinct ids of `rows`, in order of first appearance. */
  function FirstAppearances(rows: seq<JoinRow>): seq<int>
    decreases |rows|
  {
    if rows == [] then []
    else
      var init := rows[..|rows| - 1];
      var id := rows[|rows| - 1].id;
      FirstAppearances(init) + (if Appears(init, id) then [] else [id])
  }

  /** How many rows carry `id`. */
  function RowsWith(rows: seq<JoinRow>, id: int): nat
    decreases |rows|
  {
    if rows == [] then 0
    else RowsWith(rows[..|rows| - 1], id) + (if rows[|rows| - 1].id == id then 1 else 0)
  }

  lemma AppearsPrefix(rows: seq<JoinRow>, i: nat, id: int)
    requires i <= |rows| && Appears(rows[..i], id)
    ensures Appears(rows, id)
  {
    var j :| 0 <= j < i && rows[..i][j].id == id;
    assert rows[j].id == id;
  }

  /** The first row for an id that occurs in a prefix lies in that prefix. */
  lemma FirstIndexPrefix(rows: seq<JoinRow>, n: nat, id: int)
    requires n <= |rows| && Appears(rows[..n], id)
    ensures Appears(rows, id) && FirstIndex(rows, id) == FirstIndex(rows[..n], id)
  {
    AppearsPrefix(rows, n, id);
    var k := FirstIndex(rows[..n], id);
    assert rows[k].id == id;
    var k' := FirstIndex(rows, id);
    assert k' == k;
  }

  /** The ids listed are exactly the ids of the rows. */
  lemma {:induction false} FirstAppearancesMembers(rows: seq<JoinRow>)
    ensures forall id :: id in FirstAppearances(rows) <==> Appears(rows, id)
    decreases |rows|
  {
    if rows != [] {
      var n := |rows| - 1;
      var init := rows[..n];
      FirstAppearancesMembers(init);
      forall id
        ensures id in FirstAppearances(rows) <==> Appears(rows, id)
      {
        if Appears(init, id) {
          AppearsPrefix(rows, n, id);
        } else if Appears(rows, id) {
          var j :| 0 <= j < |rows| && rows[j].id == id;
          assert j == n;
        }
      }
    }
  }

  /** The ids listed are exactly the ids of the rows, each once, ordered by the position
      of their first row. */
  lemma {:induction false} FirstAppearancesSpec(rows: seq<JoinRow>)
    ensures forall id :: id in FirstAppearances(rows) <==> Appears(rows, id)
    ensures forall a, b :: 0 <= a < b < |FirstAppearances(rows)| ==>
      FirstAppearances(rows)[a] != FirstAppearances(rows)[b]
    ensures forall a, b :: 0 <= a < b < |FirstAppearances(rows)| ==>
      FirstIndex(rows, FirstAppearances(rows)[a]) < FirstIndex(rows, FirstAppearances(rows)[b])
    decreases |rows|
  {
    FirstAppearancesMembers(rows);
    if rows != [] {
      var n := |rows| - 1;
      var init := rows[..n];
      var last := rows[n];
      FirstAppearancesSpec(init);
      var p := FirstAppearances(init);
      var f := FirstAppearances(rows);
      assert f == p + (if Appears(init, last.id) then [] else [last.id]);
      forall a, b | 0 <= a < b < |f|
        ensures f[a] != f[b] && FirstIndex(rows, f[a]) < FirstIndex(rows, f[b])
      {
        assert f[a] == p[a] && Appears(init, p[a]);
        FirstIndexPrefix(rows, n, p[a]);
        if b < |p| {
          assert f[b] == p[b] && Appears(init, p[b]);
          FirstIndexPrefix(rows, n, p[b]);
        } else {
          assert f[b] == last.id && !Appears(init, last.id);
          var k' := FirstIndex(rows, last.id);
          assert k' == n;
        }
      }
    }
  }

  /** Appending a row never removes an extra. */
  lemma {:induction false} ExtrasSnoc(rs: seq<JoinRow>, r: JoinRow, id: int, primaryNombre: string)
    ensures Extras(rs + [r], id, primaryNombre)
      == Extras(rs, id, primaryNombre) + (if IsExtra(r, id, primaryNombre) then [AdditionalOf(r)] else [])
  {
    assert (rs + [r])[..|rs|] == rs;
  }

  /** How the reference contact changes when one more row is read. */
  lemma ContactForStep(rows: seq<JoinRow>, i: nat, id: int)
    requires i < |rows|
    requires Appears(rows[..i + 1], id)
    ensures !Appears(rows[..i], id) ==> rows[i].id == id && ContactFor(rows[..i + 1], id) == Primary(rows[i])
    ensures Appears(rows[..i], id) ==>
      var c := ContactFor(rows[..i], id);
      ContactFor(rows[..i + 1], id) ==
        if IsExtra(rows[i], id, c.nombre)
        then c.(additionalContacts := c.additionalContacts + [AdditionalOf(rows[i])])
        else c
  {
    if Appears(rows[..i], id) {
      ContactForLaterRow(rows, i, id);
    } else {
      ContactForFirstRow(rows, i, id);
    }
  }

  /** The row that first carries `id` gives its reference contact, with no extras. */
  lemma ContactForFirstRow(rows: seq<JoinRow>, i: nat, id: int)
    requires i < |rows|
    requires Appears(rows[..i + 1], id) && !Appears(rows[..i], id)
    ensures rows[i].id == id && ContactFor(rows[..i + 1], id) == Primary(rows[i])
  {
    var post := rows[..i + 1];
    var k := FirstIndex(post, id);
    assert post[k + 1..] == [];
  }

  /** A later row for `id` adds at most its own extra. */
  lemma ContactForLaterRow(rows: seq<JoinRow>, i: nat, id: int)
    requires i < |rows|
    requires Appears(rows[..i], id)
    ensures Appears(rows[..i + 1], id)
    ensures var c := ContactFor(rows[..i], id);
      ContactFor(rows[..i + 1], id) ==
        if IsExtra(rows[i], id, c.nombre)
        then c.(additionalContacts := c.additionalContacts + [AdditionalOf(rows[i])])
        else c
  {
    var pre, post := rows[..i], rows[..i + 1];
    var k0 := FirstIndex(pre, id);
    assert post[k0].id == id;
    var k := FirstIndex(post, id);
    assert k == k0;
    assert post[k + 1..] == pre[k + 1..] + [rows[i]];
    ExtrasSnoc(pre[k + 1..], rows[i], id, Primary(pre[k]).nombre);
  }

  /** The contact the fold produces for `id` keeps the first row's fields, and each of
      its additional contacts has a non-empty nombre that differs from the primary one. */
  lemma ContactForSpec(rows: seq<JoinRow>, id: int)
    requires Appears(rows, id)
    ensures var c := ContactFor(rows, id); var r := rows[FirstIndex(rows, id)];
      && c.id == id
      && c.numero == r.numero
      && c.anexo == (if r.tipo == "Fijo" then r.numero else "")
      && c.nombre == OrEmpty(r.nombre)
      && forall a :: a in c.additionalContacts ==> a.nombre != "" && a.nombre != c.nombre
  {
    var k := FirstIndex(rows, id);
    var c := ContactFor(rows, id);
    ExtrasNames(rows[k + 1..], id, c.nombre);
  }

  lemma {:induction false} ExtrasNames(rs: seq<JoinRow>, id: int, primaryNombre: string)
    ensures forall a :: a in Extras(rs, id, primaryNombre) ==> a.nombre != "" && a.nombre != primaryNombre
    decreases |rs|
  {
    if rs != [] {
      ExtrasNames(rs[..|rs| - 1], id, primaryNombre);
    }
  }

  lemma {:induction false} ExtrasBound(rs: seq<JoinRow>, id: int, primaryNombre: string)
    ensures |Extras(rs, id, primaryNombre)| <= RowsWith(rs, id)
    decreases |rs|
  {
    if rs != [] {
      ExtrasBound(rs[..|rs| - 1], id, primaryNombre);
    }
  }

  lemma {:induction false} RowsWithConcat(a: seq<JoinRow>, b: seq<JoinRow>, id: int)
    ensures RowsWith(a + b, id) == RowsWith(a, id) + RowsWith(b, id)
    decreases |b|
  {
    if b != [] {
      var n := |b| - 1;
      assert (a + b)[..|a + b| - 1] == a + b[..n];
      assert (a + b)[|a + b| - 1] == b[n];
      RowsWithConcat(a, b[..n], id);
    } else {
      assert a + b == a;
    }
  }

  /** A contact has at most one additional contact per row of its id beyond the first. */
  lemma AdditionalBound(rows: seq<JoinRow>, id: int)
    requires Appears(rows, id)
    ensures |ContactFor(rows, id).additionalContacts| <= RowsWith(rows, id) - 1
  {
    var k := FirstIndex(rows, id);
    var head, tail := rows[..k + 1], rows[k + 1..];
    assert head + tail == rows;
    RowsWithConcat(head, tail, id);
    assert head[|head| - 1].id == id;
    ExtrasBound(tail, id, Primary(rows[k]).nombre);
  }

  /** The map after reading row `i` holds the reference contact of every id seen so far. */
  lemma GroupStep(rows: seq<JoinRow>, i: nat, m: map<int, Contact>, m': map<int, Contact>)
    requires i < |rows|
    requires forall id :: id in m <==> Appears(rows[..i], id)
    requires forall id :: id in m ==> m[id] == ContactFor(rows[..i], id)
    requires var r := rows[i];
      m' == if r.id !in m then m[r.id := Primary(r)]
            else if Present(r.nombre) && r.nombre.value != m[r.id].nombre
            then m[r.id := m[r.id].(additionalContacts := m[r.id].additionalContacts + [AdditionalOf(r)])]
            else m
    ensures forall id :: id in m' <==> Appears(rows[..i + 1], id)
    ensures forall id :: id in m' ==> m'[id] == ContactFor(rows[..i + 1], id)
  {
    var r := rows[i];
    assert rows[..i + 1][i].id == r.id;
    forall id | Appears(rows[..i + 1], id)
      ensures id in m' && m'[id] == ContactFor(rows[..i + 1], id)
    {
      ContactForStep(rows, i, id);
    }
    forall id | id in m'
      ensures Appears(rows[..i + 1], id)
    {
      if id != r.id {
        var j :| 0 <= j < i && rows[..i][j].id == id;
        assert rows[..i + 1][j].id == id;
      }
    }
  }

  /** The `forEach` over the query rows: `contactsMap` is a map plus the insertion order
      of its keys (a JavaScript `Map` iterates in insertion order). */
  method FoldRows(rows: seq<JoinRow>) returns (order: seq<int>, contactsMap: map<int, Contact>)
    ensures order == FirstAppearances(rows)
    ensures forall id :: id in contactsMap <==> Appears(rows, id)
    ensures forall id :: id in contactsMap ==> contactsMap[id] == ContactFor(rows, id)
  {
    order, contactsMap := [], map[];
    var i := 0;
    while i < |rows|
      invariant 0 <= i <= |rows|
      invariant order == FirstAppearances(rows[..i])
      invariant forall id :: id in contactsMap <==> Appears(rows[..i], id)
      invariant forall id :: id in contactsMap ==> contactsMap[id] == ContactFor(rows[..i], id)
    {
      var row := rows[i];
      ghost var m0 := contactsMap;
      assert rows[..i + 1][..i] == rows[..i];
      if row.id !in contactsMap {
        contactsMap := contactsMap[row.id := Primary(row)];
        order := order + [row.id];
      } else {
        var existing := contactsMap[row.id];
        if Present(row.nombre) && row.nombre.value != existing.nombre {
          contactsMap := contactsMap[row.id :=
            existing.(additionalContacts := existing.additionalContacts + [AdditionalOf(row)])];
        }
      }
      GroupStep(rows, i, m0, contactsMap);
      i := i + 1;
    }
    assert rows[..i] == rows;
  }

  /** `Array.from(contactsMap.values())`. */
  method ValuesInOrder(order: seq<int>, contactsMap: map<int, Contact>) returns (contacts: seq<Contact>)
    requires forall q :: 0 <= q < |order| ==> order[q] in contactsMap
    ensures |contacts| == |order|
    ensures forall q :: 0 <= q < |order| ==> contacts[q] == contactsMap[order[q]]
  {
    contacts := [];
    var j := 0;
    while j < |order|
      invariant 0 <= j <= |order|
      invariant |contacts| == j
      invariant forall q :: 0 <= q < j ==> contacts[q] == contactsMap[order[q]]
    {
      contacts := contacts + [contactsMap[order[j]]];
      j := j + 1;
    }
  }

  /** Two later rows with the same new nombre both become additional contacts: the
      additional names are not deduplicated against each other. */
  lemma RepeatedExtrasKept(first: JoinRow, later: JoinRow)
    requires later.id == first.id && Present(later.nombre) && later.nombre.value != OrEmpty(first.nombre)
    ensures Appears([first, later, later], first.id)
    ensures ContactFor([first, later, later], first.id).additionalContacts == [AdditionalOf(later), AdditionalOf(later)]
  {
    var rows := [first, later, later];
    var p := OrEmpty(first.nombre);
    assert rows[0].id == first.id;
    assert FirstIndex(rows, first.id) == 0;
    assert Primary(rows[0]).nombre == p;
    assert rows[1..] == [later, later];
    assert IsExtra(later, first.id, p);
    assert [later][..0] == [];
    assert Extras([later], first.id, p) == [AdditionalOf(later)];
    assert [later, later][..1] == [later];
  }

  /** The `GET` handler's grouping: the contacts of the reference definition, one per
      distinct id in order of first appearance. */
  method GroupRows(rows: seq<JoinRow>) returns (contacts: seq<Contact>)
    ensures |contacts| == |FirstAppearances(rows)|
    ensures forall j :: 0 <= j < |contacts| ==>
      Appears(rows, FirstAppearances(rows)[j]) && contacts[j] == ContactFor(rows, FirstAppearances(rows)[j])
  {
    var order, contactsMap := FoldRows(rows);
    FirstAppearancesSpec(rows);
    forall q | 0 <= q < |order|
      ensures order[q] in contactsMap
    {
      assert order[q] in FirstAppearances(rows);
    }
    contacts := ValuesInOrder(order, contactsMap);
  }
}
