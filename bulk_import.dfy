/** The one-off spreadsheet import (`db/poblarbd_completo.js`): cell normalisation, the
    fixed-line and mobile-line row loops that fan a row out into a number row, user rows
    and relation rows, and the relation-first clearing that precedes them.

    Spreadsheet rows arrive as sequences of cells (the `header: 1` form of
    `sheet_to_json`); the three tables `numeros`, `usuarios_numeros` and
    `usuarios_numeros_rel` are maps from id to record; `randomUUID()` is a fresh-id
    counter and a rejected `execQuery` is a statement number in the `failing` set of the
    import database. */
module BulkImport {
  import opened Options
  import opened Text
  import Filtering

  // ---------------------------------------------------------------- cells

  /** A spreadsheet cell: absent, text, or a whole number. Fractional, boolean and date
      cells are not modelled. */
  datatype Cell = Blank | Str(s: string) | Num(n: int)

  type Row = seq<Cell>

  /** JavaScript truthiness of a cell value: undefined, "" and 0 are falsy. */
  predicate Truthy(c: Cell) {
    match c
    case Blank => false
    case Str(s) => s != []
    case Num(n) => n != 0
  }

  /** `String(value)`. */
  function CellString(c: Cell): string {
    match c
    case Blank => "undefined"
    case Str(s) => s
    case Num(n) => IntToString(n)
  }

  /** `row[i]`: a column past the end of the row, or an empty one, reads as undefined. */
  function At(row: Row, i: nat): Cell {
    if i < |row| then row[i] else Blank
  }

  function Min(a: nat, b: nat): nat {
    if a <= b then a else b
  }

  /** `formatField(text, maxLength)`: null for a falsy cell, otherwise the longest prefix of
      the trimmed text that fits in `maxLength` characters. */
  function FormatField(c: Cell, maxLength: nat): (r: Option<string>)
    ensures r.None? <==> !Truthy(c)
    ensures r.Some? ==> |r.value| == Min(maxLength, |Trim(CellString(c))|)
    ensures r.Some? ==> StartsWith(Trim(CellString(c)), r.value)
  {
    if !Truthy(c) then None
    else
      var str := Trim(CellString(c));
      Some(if |str| > maxLength then str[..maxLength] else str)
  }

  /** A non-empty cell of blanks is formatted to the empty string, not to null. */
  lemma WhitespaceFormatsToEmpty(s: string, maxLength: nat)
    requires s != [] && AllWhitespace(s)
    ensures FormatField(Str(s), maxLength) == Some("")
  {
    BlankIffAllWhitespace(s);
  }

  /** The digits of a cell's trimmed text, before any country-code handling. */
  function CellDigits(c: Cell): string {
    DigitsOnly(Trim(CellString(c)))
  }

  /** The digit-string part of `cleanCellNumber`: drop a leading "56" from more than nine
      digits, then keep the last nine. The result is a suffix of the digits: the last nine
      of them, or all of them when there are fewer, except that exactly ten digits
      beginning with 56 leave eight. */
  function CleanDigits(digits: string): (r: string)
    requires AllDigits(digits)
    ensures AllDigits(r) && |r| <= 9
    ensures EndsWith(digits, r)
    ensures |r| == (if |digits| == 10 && StartsWith(digits, "56") then 8 else Min(|digits|, 9))
  {
    var national := if StartsWith(digits, "56") && |digits| > 9 then digits[2..] else digits;
    assert national == digits[|digits| - |national|..];
    var cleaned := if |national| >= 9 then national[|national| - 9..] else national;
    assert cleaned == national[|national| - |cleaned|..];
    assert cleaned == digits[|digits| - |cleaned|..];
    DigitsOfSuffix(digits, |digits| - |cleaned|);
    cleaned
  }

  /** `cleanCellNumber(numero)`: null for a falsy cell, otherwise the cleaned digits of
      its trimmed text. */
  function CleanCellNumber(c: Cell): (r: Option<string>)
    ensures r.None? <==> !Truthy(c)
    ensures r.Some? ==> AllDigits(r.value) && |r.value| <= 9
    ensures r.Some? ==> EndsWith(CellDigits(c), r.value)
  {
    if !Truthy(c) then None
    else Some(CleanDigits(DigitsOnly(Trim(CellString(c)))))
  }

  lemma DigitsOfSuffix(s: string, k: nat)
    requires k <= |s| && AllDigits(s)
    ensures AllDigits(s[k..])
  {
    forall i | 0 <= i < |s| - k ensures IsDigit(s[k..][i]) {
      assert s[k..][i] == s[k + i];
    }
  }

  /** `isValidCellNumber(numero)`: the cleaned number has exactly nine digits and starts with 9. */
  predicate IsValidCellNumber(c: Cell) {
    var cleaned := CleanCellNumber(c);
    cleaned.Some? && cleaned.value != [] && |cleaned.value| == 9 && cleaned.value[0] == '9'
  }

  lemma CleanDigitsValidity(d: string)
    requires AllDigits(d)
    ensures (|CleanDigits(d)| == 9 && CleanDigits(d)[0] == '9') <==>
      |d| >= 9 && d[|d| - 9] == '9' && !(|d| == 10 && StartsWith(d, "56"))
  {
    var r := CleanDigits(d);
    if |r| == 9 {
      assert r == d[|d| - 9..];
      assert r[0] == d[|d| - 9];
    }
  }

  /** A cell is a valid mobile number exactly when it has at least nine digits, the ninth
      digit from the end is 9, and it is not a ten-digit number beginning with 56. */
  lemma CellNumberValidity(c: Cell)
    ensures IsValidCellNumber(c) <==>
      Truthy(c) && |CellDigits(c)| >= 9 && CellDigits(c)[|CellDigits(c)| - 9] == '9' &&
      !(|CellDigits(c)| == 10 && StartsWith(CellDigits(c), "56"))
  {
    if Truthy(c) {
      CleanDigitsValidity(CellDigits(c));
    }
  }

  /** `isValidFixedNumber(numero)`: truthy, and its trimmed text is a non-empty run of digits. */
  predicate IsValidFixedNumber(c: Cell) {
    Truthy(c) && var str := Trim(CellString(c)); |str| > 0 && AllDigits(str)
  }

  /** A numeric extension is valid exactly when it is positive (0 is falsy, a negative
      number carries a minus sign); a text extension exactly when its trimmed text is a
      non-empty run of digits; an absent one never. */
  lemma FixedNumberValidity(c: Cell)
    ensures c.Num? ==> (IsValidFixedNumber(c) <==> c.n > 0)
    ensures c.Str? ==> (IsValidFixedNumber(c) <==> Trim(c.s) != [] && AllDigits(Trim(c.s)))
    ensures c.Blank? ==> !IsValidFixedNumber(c)
  {
    if c.Num? && c.n != 0 {
      var s := CellString(c);
      assert s[0] != ' ' && !IsWhitespace(s[0]) && !IsWhitespace(s[|s| - 1]);
      assert TrimStart(s) == s;
      assert Trim(s) == s;
      if c.n < 0 {
        assert !IsDigit(s[0]);
      }
    }
  }

  // ---------------------------------------------------------------- tables

  datatype NumeroRow = NumeroRow(numero: string, tipo: string, direccion: Option<string>,
                                 unidad: Option<string>, ubicacion: Option<string>)
  datatype UsuarioRow = UsuarioRow(nombre: string, cargo: Option<string>)
  datatype RelRow = RelRow(idUsuario: nat, idNumero: nat)

  /** `numeros`, `usuarios_numeros` and `usuarios_numeros_rel`, keyed by id. */
  datatype Tables = Tables(numeros: map<nat, NumeroRow>, usuarios: map<nat, UsuarioRow>,
                           rels: map<nat, RelRow>)

  /** The statements the import issues. */
  datatype Stmt =
    | InsertNumero(id: nat, numero: NumeroRow)
    | InsertUsuario(id: nat, usuario: UsuarioRow)
    | InsertRel(id: nat, rel: RelRow)
    | ClearRels
    | ClearUsuarios
    | ClearNumeros

  function Apply(t: Tables, s: Stmt): Tables {
    match s
    case InsertNumero(id, n) => t.(numeros := t.numeros[id := n])
    case InsertUsuario(id, u) => t.(usuarios := t.usuarios[id := u])
    case InsertRel(id, r) => t.(rels := t.rels[id := r])
    case ClearRels => t.(rels := map[])
    case ClearUsuarios => t.(usuarios := map[])
    case ClearNumeros => t.(numeros := map[])
  }

  /** The tables after the statements run one after another. */
  function ApplyAll(t: Tables, ss: seq<Stmt>): Tables
    decreases |ss|
  {
    if ss == [] then t else Apply(ApplyAll(t, ss[..|ss| - 1]), ss[|ss| - 1])
  }

  lemma ApplyAllStep(t: Tables, ss: seq<Stmt>, k: nat)
    requires k < |ss|
    ensures ApplyAll(t, ss[..k + 1]) == Apply(ApplyAll(t, ss[..k]), ss[k])
  {
    assert ss[..k + 1][..k] == ss[..k];
  }

  /** Referential integrity: every relation names an existing user row and number row. */
  predicate RelsResolve(t: Tables) {
    forall k :: k in t.rels ==> t.rels[k].idUsuario in t.usuarios && t.rels[k].idNumero in t.numeros
  }

  /** Every id in use is below `bound`, so ids from `bound` on are fresh. */
  predicate IdsBelow(t: Tables, bound: nat) {
    (forall k :: k in t.numeros ==> k < bound) &&
    (forall k :: k in t.usuarios ==> k < bound) &&
    (forall k :: k in t.rels ==> k < bound)
  }

  /** Every row of `t` is still in `t2`, unchanged. */
  predicate Keeps(t: Tables, t2: Tables) {
    (forall k :: k in t.numeros ==> k in t2.numeros && t2.numeros[k] == t.numeros[k]) &&
    (forall k :: k in t.usuarios ==> k in t2.usuarios && t2.usuarios[k] == t.usuarios[k]) &&
    (forall k :: k in t.rels ==> k in t2.rels && t2.rels[k] == t.rels[k])
  }

  /** `t2` keeps every row of `t`, and every other row of `t2` has an id of at least
      `bound`. */
  predicate GrowsFrom(t: Tables, t2: Tables, bound: nat) {
    Keeps(t, t2) &&
    (forall k :: k in t2.numeros ==> k in t.numeros || k >= bound) &&
    (forall k :: k in t2.usuarios ==> k in t.usuarios || k >= bound) &&
    (forall k :: k in t2.rels ==> k in t.rels || k >= bound)
  }

  // ---------------------------------------------------------------- row plans

  /** Insert a user row and the relation linking it to number `numeroId`; the relation
      takes the id after the user's. */
  function LinkStmts(usuarioId: nat, u: UsuarioRow, numeroId: nat): seq<Stmt> {
    [InsertUsuario(usuarioId, u), InsertRel(usuarioId + 1, RelRow(usuarioId, numeroId))]
  }

  /** What one spreadsheet row inserts when every statement succeeds: the number row, then
      each user followed by its relation, with fresh ids handed out in statement order
      starting at `numeroId`. */
  function FanOutPlan(numeroId: nat, numero: NumeroRow, us: seq<UsuarioRow>): (plan: seq<Stmt>)
    ensures |plan| == 1 + 2 * |us|
    decreases |us|
  {
    if us == [] then [InsertNumero(numeroId, numero)]
    else
      var k := |us| - 1;
      FanOutPlan(numeroId, numero, us[..k]) + LinkStmts(numeroId + 1 + 2 * k, us[k], numeroId)
  }

  lemma FanOutSnoc(b: nat, n: NumeroRow, us: seq<UsuarioRow>, u: UsuarioRow)
    ensures FanOutPlan(b, n, us + [u]) == FanOutPlan(b, n, us) + LinkStmts(b + 1 + 2 * |us|, u, b)
  {
    assert (us + [u])[..|us|] == us;
  }

  /** The plan of the first k users is the first 1 + 2k statements of the whole plan. */
  lemma {:induction false} FanOutPlanPrefix(b: nat, n: NumeroRow, us: seq<UsuarioRow>, k: nat)
    requires k <= |us|
    ensures FanOutPlan(b, n, us)[..1 + 2 * k] == FanOutPlan(b, n, us[..k])
    decreases |us|
  {
    if k == |us| {
      assert us[..k] == us;
    } else {
      var init := us[..|us| - 1];
      FanOutPlanPrefix(b, n, init, k);
      assert init[..k] == us[..k];
      var whole, front := FanOutPlan(b, n, us), FanOutPlan(b, n, init);
      assert whole[..|front|] == front;
      assert whole[..1 + 2 * k] == front[..1 + 2 * k];
    }
  }

  lemma {:induction false} ApplyAllConcat(t: Tables, s1: seq<Stmt>, s2: seq<Stmt>)
    ensures ApplyAll(t, s1 + s2) == ApplyAll(ApplyAll(t, s1), s2)
    decreases |s2|
  {
    if s2 == [] {
      assert s1 + s2 == s1;
    } else {
      var init := s2[..|s2| - 1];
      ApplyAllConcat(t, s1, init);
      assert (s1 + s2)[..|s1 + s2| - 1] == s1 + init;
    }
  }

  lemma PrefixOfConcat<T>(x: seq<T>, y: seq<T>, a: nat)
    requires a <= |y|
    ensures (x + y)[..|x| + a] == x + y[..a]
  {
  }

  lemma ApplyAllTwo(t: Tables, x: Stmt, y: Stmt)
    ensures ApplyAll(t, [x, y]) == Apply(Apply(t, x), y)
  {
    var s := [x, y];
    assert s[..1] == [x] && [x][..0] == [];
    assert ApplyAll(t, [x]) == Apply(t, x);
    assert ApplyAll(t, s) == Apply(ApplyAll(t, s[..1]), y);
  }

  ghost predicate IsUserSlot(b: nat, k: nat, id: nat) {
    b < id <= b + 2 * k && (id - b) % 2 == 1
  }

  ghost predicate IsRelSlot(b: nat, k: nat, id: nat) {
    b + 1 < id <= b + 2 * k && (id - b) % 2 == 0
  }

  /** The users of `t2` are those of `t` plus `us` at ids b+1, b+3, ... */
  ghost predicate UsersAdded(t: Tables, t2: Tables, b: nat, us: seq<UsuarioRow>) {
    (forall id :: id in t2.usuarios <==> id in t.usuarios || IsUserSlot(b, |us|, id)) &&
    (forall id :: id in t.usuarios ==> t2.usuarios[id] == t.usuarios[id]) &&
    (forall j :: 0 <= j < |us| ==> t2.usuarios[b + 1 + 2 * j] == us[j])
  }

  /** The relations of `t2` are those of `t` plus, at ids b+2, b+4, ..., one per user of
      `us` linking that user to number `b`. */
  ghost predicate RelsAdded(t: Tables, t2: Tables, b: nat, us: seq<UsuarioRow>) {
    (forall id :: id in t2.rels <==> id in t.rels || IsRelSlot(b, |us|, id)) &&
    (forall id :: id in t.rels ==> t2.rels[id] == t.rels[id]) &&
    (forall j :: 0 <= j < |us| ==> t2.rels[b + 2 + 2 * j] == RelRow(b + 1 + 2 * j, b))
  }

  /** `t2` is `t` plus number `b`, the users `us` at ids b+1, b+3, ... and their relations
      at ids b+2, b+4, ..., each linking its user to number `b`; nothing else is added or
      changed. */
  ghost predicate FannedOut(t: Tables, t2: Tables, b: nat, n: NumeroRow, us: seq<UsuarioRow>) {
    t2.numeros == t.numeros[b := n] && UsersAdded(t, t2, b, us) && RelsAdded(t, t2, b, us)
  }

  lemma UsersStep(t: Tables, t0: Tables, t2: Tables, b: nat, us: seq<UsuarioRow>, u: UsuarioRow)
    requires IdsBelow(t, b) && UsersAdded(t, t0, b, us)
    requires t2.usuarios == t0.usuarios[b + 1 + 2 * |us| := u]
    ensures UsersAdded(t, t2, b, us + [u])
  {
    var m := |us|;
    var us2 := us + [u];
    forall id ensures id in t2.usuarios <==> id in t.usuarios || IsUserSlot(b, m + 1, id) {
      assert IsUserSlot(b, m + 1, id) <==> IsUserSlot(b, m, id) || id == b + 1 + 2 * m;
    }
    forall j | 0 <= j < m + 1 ensures t2.usuarios[b + 1 + 2 * j] == us2[j] {
      if j < m {
        assert us2[j] == us[j];
      }
    }
  }

  lemma RelsStep(t: Tables, t0: Tables, t2: Tables, b: nat, us: seq<UsuarioRow>, u: UsuarioRow)
    requires IdsBelow(t, b) && RelsAdded(t, t0, b, us)
    requires t2.rels == t0.rels[b + 2 + 2 * |us| := RelRow(b + 1 + 2 * |us|, b)]
    ensures RelsAdded(t, t2, b, us + [u])
  {
    var m := |us|;
    forall id ensures id in t2.rels <==> id in t.rels || IsRelSlot(b, m + 1, id) {
      assert IsRelSlot(b, m + 1, id) <==> IsRelSlot(b, m, id) || id == b + 2 + 2 * m;
    }
  }

  /** Linking one more user extends a fan-out by that user. */
  lemma FanOutStep(t: Tables, t0: Tables, b: nat, n: NumeroRow, us: seq<UsuarioRow>, u: UsuarioRow)
    requires IdsBelow(t, b)
    requires FannedOut(t, t0, b, n, us)
    ensures FannedOut(t, ApplyAll(t0, LinkStmts(b + 1 + 2 * |us|, u, b)), b, n, us + [u])
  {
    var m := |us|;
    ApplyAllTwo(t0, InsertUsuario(b + 1 + 2 * m, u), InsertRel(b + 2 + 2 * m, RelRow(b + 1 + 2 * m, b)));
    var t2 := ApplyAll(t0, LinkStmts(b + 1 + 2 * m, u, b));
    assert t2.numeros == t0.numeros;
    UsersStep(t, t0, t2, b, us, u);
    RelsStep(t, t0, t2, b, us, u);
  }

  /** Running a whole fan-out plan over tables whose ids are all below `b` adds exactly the
      number row, every user, and every relation linking that user to the number. */
  lemma {:induction false} FanOutEffect(t: Tables, b: nat, n: NumeroRow, us: seq<UsuarioRow>)
    requires IdsBelow(t, b)
    ensures FannedOut(t, ApplyAll(t, FanOutPlan(b, n, us)), b, n, us)
    decreases |us|
  {
    if us == [] {
      assert [InsertNumero(b, n)][..0] == [];
    } else {
      var init, u := us[..|us| - 1], us[|us| - 1];
      assert us == init + [u];
      var front := FanOutPlan(b, n, init);
      FanOutEffect(t, b, n, init);
      FanOutSnoc(b, n, init, u);
      ApplyAllConcat(t, front, LinkStmts(b + 1 + 2 * |init|, u, b));
      FanOutStep(t, ApplyAll(t, front), b, n, init, u);
    }
  }

  /** Running `plan` one statement at a time until one is rejected: the first `applied`
      statements took effect, and all of them did exactly when `ok`. */
  predicate RanPrefix(t0: Tables, t: Tables, plan: seq<Stmt>, applied: nat, ok: bool) {
    applied <= |plan| && t == ApplyAll(t0, plan[..applied]) && (ok <==> applied == |plan|)
  }

  /** A row whose user number |prev| got only `a` of its two statements applied has run a
      proper prefix of its whole plan. */
  lemma PartialRun(t0: Tables, b: nat, n: NumeroRow, full: seq<UsuarioRow>, prev: seq<UsuarioRow>, u: UsuarioRow, a: nat, t: Tables)
    requires |prev| < |full| && full[..|prev| + 1] == prev + [u] && a < 2
    requires t == ApplyAll(ApplyAll(t0, FanOutPlan(b, n, prev)), LinkStmts(b + 1 + 2 * |prev|, u, b)[..a])
    ensures RanPrefix(t0, t, FanOutPlan(b, n, full), 1 + 2 * |prev| + a, false)
  {
    var two := LinkStmts(b + 1 + 2 * |prev|, u, b);
    var front := FanOutPlan(b, n, prev);
    PlanThroughUser(b, n, full, prev, u, a);
    ApplyAllConcat(t0, front, two[..a]);
  }

  /** The plan of the whole row, cut `a` statements into the user after `prev`, is the
      plan of `prev` followed by the first `a` statements linking that user. */
  lemma PlanThroughUser(b: nat, n: NumeroRow, full: seq<UsuarioRow>, prev: seq<UsuarioRow>, u: UsuarioRow, a: nat)
    requires |prev| < |full| && full[..|prev| + 1] == prev + [u] && a <= 2
    ensures FanOutPlan(b, n, full)[..1 + 2 * |prev| + a] == FanOutPlan(b, n, prev) + LinkStmts(b + 1 + 2 * |prev|, u, b)[..a]
  {
    var two := LinkStmts(b + 1 + 2 * |prev|, u, b);
    var plan := FanOutPlan(b, n, full);
    var front := FanOutPlan(b, n, prev);
    var k := |prev| + 1;
    FanOutPlanPrefix(b, n, full, k);
    FanOutSnoc(b, n, prev, u);
    var upToU := plan[..1 + 2 * k];
    assert upToU == front + two;
    assert plan[..|front| + a] == upToU[..|front| + a];
    PrefixOfConcat(front, two, a);
  }

  /** Statement k of a fan-out plan for number id b: the number itself first, then a user
      at every odd offset and, at every even one, the relation linking the user just
      before it to number b. Each statement's id is b plus its offset. */
  ghost predicate PlanSlot(s: Stmt, b: nat, k: nat) {
    if k == 0 then s.InsertNumero? && s.id == b
    else if k % 2 == 1 then s.InsertUsuario? && s.id == b + k
    else s == InsertRel(b + k, RelRow(b + k - 1, b))
  }

  lemma {:induction false} FanOutAt(b: nat, n: NumeroRow, us: seq<UsuarioRow>, k: nat)
    requires k < 1 + 2 * |us|
    ensures PlanSlot(FanOutPlan(b, n, us)[k], b, k)
    decreases |us|
  {
    if us != [] {
      var m := |us| - 1;
      var front := FanOutPlan(b, n, us[..m]);
      if k < |front| {
        FanOutAt(b, n, us[..m], k);
        assert FanOutPlan(b, n, us)[k] == front[k];
      }
    }
  }

  lemma IdsBelowMono(t: Tables, lo: nat, hi: nat)
    requires IdsBelow(t, lo) && lo <= hi
    ensures IdsBelow(t, hi)
  {
  }

  /** What the first k statements of a fan-out plan for number id b leave, starting from
      `t`: only ids below b + k in use, rows added only at ids from b on, relations that
      still resolve, the number present once inserted, and the user a pending relation
      will name present. */
  ghost predicate PrefixFacts(t: Tables, t2: Tables, b: nat, k: nat) {
    IdsBelow(t2, b + k) && GrowsFrom(t, t2, b) &&
    (RelsResolve(t) ==> RelsResolve(t2)) &&
    (k >= 1 ==> b in t2.numeros) &&
    (k >= 2 && k % 2 == 0 ==> b + k - 1 in t2.usuarios)
  }

  lemma SlotStep(t: Tables, t2: Tables, s: Stmt, b: nat, k: nat)
    requires PrefixFacts(t, t2, b, k) && PlanSlot(s, b, k)
    ensures PrefixFacts(t, Apply(t2, s), b, k + 1)
  {
    if RelsResolve(t) {
      InsertKeepsResolved(t2, s);
    }
  }

  /** Any prefix of a fan-out plan run over tables whose ids are all below `b` keeps the
      facts above; in particular the relations it inserts never point at a missing row. */
  lemma {:induction false} PlanPrefixEffect(t: Tables, b: nat, n: NumeroRow, us: seq<UsuarioRow>, k: nat)
    requires IdsBelow(t, b) && k <= 1 + 2 * |us|
    ensures PrefixFacts(t, ApplyAll(t, FanOutPlan(b, n, us)[..k]), b, k)
  {
    var plan := FanOutPlan(b, n, us);
    if k == 0 {
      assert plan[..0] == [];
    } else {
      PlanPrefixEffect(t, b, n, us, k - 1);
      ApplyAllStep(t, plan, k - 1);
      FanOutAt(b, n, us, k - 1);
      SlotStep(t, ApplyAll(t, plan[..k - 1]), plan[k - 1], b, k - 1);
    }
  }

  // ---------------------------------------------------------------- fixed lines

  /** Columns of the fixed-line sheet. */
  const NumeroAnexoCol := 0
  const FixedDireccionCol := 17
  const FixedUnidadCol := 18
  const FixedUbicacionCol := 19
  const Usuario1Col := 20
  const Usuario2Col := 21
  const Usuario3Col := 22

  /** A fixed-line row is inserted (rather than skipped) when it is not empty and its
      extension is valid. */
  predicate ValidFixedRow(row: Row) {
    row != [] && IsValidFixedNumber(At(row, NumeroAnexoCol))
  }

  /** The number row a fixed line is stored as. */
  function FixedNumero(row: Row): NumeroRow {
    NumeroRow(Trim(CellString(At(row, NumeroAnexoCol))), "Fijo",
              FormatField(At(row, FixedDireccionCol), 100),
              FormatField(At(row, FixedUnidadCol), 50),
              FormatField(At(row, FixedUbicacionCol), 100))
  }

  predicate NonBlankCell(u: Cell) {
    Truthy(u) && Trim(CellString(u)) != []
  }

  /** USUARIO1..USUARIO3 that are truthy and not blank, in column order. */
  function NonBlankUsers(row: Row): (r: seq<Cell>)
    ensures |r| <= 3
  {
    Filtering.Filter([At(row, Usuario1Col), At(row, Usuario2Col), At(row, Usuario3Col)], NonBlankCell)
  }

  /** `formatField(u, 50)` of each cell. */
  function FormatNames(cells: seq<Cell>): (r: seq<Option<string>>)
    ensures |r| == |cells|
    ensures forall i :: 0 <= i < |cells| ==> r[i] == FormatField(cells[i], 50)
  {
    seq(|cells|, i requires 0 <= i < |cells| => FormatField(cells[i], 50))
  }

  /** The user rows the fixed-line loop creates: one per formatted name that is non-empty
      (the `if (nombreUsuario)` test), without a cargo. */
  function UsersFromNames(names: seq<Option<string>>): (r: seq<UsuarioRow>)
    ensures |r| <= |names|
    decreases |names|
  {
    if names == [] then []
    else
      var name := names[|names| - 1];
      UsersFromNames(names[..|names| - 1]) +
      (if name.Some? && name.value != [] then [UsuarioRow(name.value, None)] else [])
  }

  /** The users of a fixed line. */
  function FixedUsuarios(row: Row): seq<UsuarioRow> {
    UsersFromNames(FormatNames(NonBlankUsers(row)))
  }

  /** What a fixed-line row inserts when every statement succeeds. */
  function FixedPlan(row: Row, base: nat): seq<Stmt> {
    FanOutPlan(base, FixedNumero(row), FixedUsuarios(row))
  }

  /** The users made from the first j names are the first users made from all of them. */
  lemma {:induction false} UsersFromNamesPrefix(names: seq<Option<string>>, j: nat)
    requires j <= |names|
    ensures |UsersFromNames(names[..j])| <= |UsersFromNames(names)|
    ensures UsersFromNames(names)[..|UsersFromNames(names[..j])|] == UsersFromNames(names[..j])
    decreases |names|
  {
    if j == |names| {
      assert names[..j] == names;
    } else {
      var init := names[..|names| - 1];
      UsersFromNamesPrefix(init, j);
      assert init[..j] == names[..j];
      var whole, front, part := UsersFromNames(names), UsersFromNames(init), UsersFromNames(names[..j]);
      assert whole[..|front|] == front;
      assert whole[..|part|] == front[..|part|];
    }
  }

  /** Name j adds the next user exactly when it is present and non-empty. */
  lemma NextUser(names: seq<Option<string>>, j: nat)
    requires j < |names|
    ensures UsersFromNames(names[..j + 1]) == UsersFromNames(names[..j]) +
      (if names[j].Some? && names[j].value != [] then [UsuarioRow(names[j].value, None)] else [])
  {
    assert names[..j + 1][..j] == names[..j];
  }

  /** When every name is present and non-empty, each yields exactly one user. */
  lemma {:induction false} UsersFromPresentNames(names: seq<Option<string>>)
    requires forall i :: 0 <= i < |names| ==> names[i].Some? && names[i].value != []
    ensures |UsersFromNames(names)| == |names|
    ensures forall j :: 0 <= j < |names| ==> UsersFromNames(names)[j] == UsuarioRow(names[j].value, None)
    decreases |names|
  {
    if names != [] {
      var init := names[..|names| - 1];
      UsersFromPresentNames(init);
      var us := UsersFromNames(names);
      assert us == UsersFromNames(init) + [UsuarioRow(names[|names| - 1].value, None)];
      forall j | 0 <= j < |names| ensures us[j] == UsuarioRow(names[j].value, None) {
        if j < |init| {
          assert names[j] == init[j] && us[j] == UsersFromNames(init)[j];
        }
      }
    }
  }

  /** Every non-blank USUARIO cell yields exactly one user, named by its formatted text and
      without a cargo; so a fixed line has at most three users. */
  lemma FixedUsersAtMostThree(row: Row)
    ensures |FixedUsuarios(row)| == |NonBlankUsers(row)| <= 3
    ensures forall j :: 0 <= j < |FixedUsuarios(row)| ==>
      FormatField(NonBlankUsers(row)[j], 50) == Some(FixedUsuarios(row)[j].nombre) &&
      FixedUsuarios(row)[j].cargo == None
  {
    var cells := [At(row, Usuario1Col), At(row, Usuario2Col), At(row, Usuario3Col)];
    Filtering.FilterMembers(cells, NonBlankCell);
    var kept := NonBlankUsers(row);
    var names := FormatNames(kept);
    forall i | 0 <= i < |names| ensures names[i].Some? && names[i].value != [] {
      assert kept[i] in kept;
      assert NonBlankCell(kept[i]);
    }
    UsersFromPresentNames(names);
  }

  // ---------------------------------------------------------------- mobile lines

  const ChipNumeroCol := 0
  const EstadoLineaCol := 7
  const MobileDireccionCol := 18
  const MobileUnidadCol := 19
  const NombreCol := 20
  const CargoCol := 21

  /** `estadoLinea ? String(estadoLinea).toUpperCase().trim() : ""`. */
  function EstadoLinea(c: Cell): string {
    if Truthy(c) then Trim(ToUpper(CellString(c))) else ""
  }

  /** A mobile row is inserted when it is not empty, its line is enabled and its chip
      number is valid. */
  predicate ValidMobileRow(row: Row) {
    row != [] && EstadoLinea(At(row, EstadoLineaCol)) == "HABILITADO" &&
    IsValidCellNumber(At(row, ChipNumeroCol))
  }


  /** The number row a mobile line is stored as: the cleaned number, no location. */
  function MobileNumero(row: Row): NumeroRow
    requires IsValidCellNumber(At(row, ChipNumeroCol))
  {
    NumeroRow(CleanCellNumber(At(row, ChipNumeroCol)).value, "Móvil",
              FormatField(At(row, MobileDireccionCol), 50),
              FormatField(At(row, MobileUnidadCol), 50),
              None)
  }

  /** The user a mobile line creates: one, with its cargo, when the formatted name is
      non-empty (the `if (nombreFormateado)` test); none otherwise. */
  function MobileUser(nombre: Option<string>, cargo: Option<string>): (r: seq<UsuarioRow>)
    ensures |r| <= 1
    ensures |r| == 1 <==> nombre.Some? && nombre.value != []
  {
    if nombre.Some? && nombre.value != [] then [UsuarioRow(nombre.value, cargo)] else []
  }

  /** The users of a mobile line. */
  function MobileUsuarios(row: Row): seq<UsuarioRow> {
    MobileUser(FormatField(At(row, NombreCol), 50), FormatField(At(row, CargoCol), 50))
  }

  function MobilePlan(row: Row, base: nat): seq<Stmt>
    requires IsValidCellNumber(At(row, ChipNumeroCol))
  {
    FanOutPlan(base, MobileNumero(row), MobileUsuarios(row))
  }

  /** A stored mobile number is nine digits starting with 9, of type "Móvil", without a
      location. */
  lemma MobileNumeroShape(row: Row)
    requires IsValidCellNumber(At(row, ChipNumeroCol))
    ensures var n := MobileNumero(row);
      |n.numero| == 9 && n.numero[0] == '9' && AllDigits(n.numero) && n.tipo == "Móvil" && n.ubicacion.None?
  {
  }

  // ---------------------------------------------------------------- the import database

  datatype Counts = Counts(processed: nat, skipped: nat)

  /** The database as the import sees it. `executed` numbers the statements issued so far;
      a statement whose number is in `failing` is rejected by the server. */
  class ImportDb {
    var tables: Tables
    var nextId: nat
    var executed: nat
    const failing: set<nat>

    ghost predicate Valid()
      reads this
    {
      IdsBelow(tables, nextId)
    }

    /** No statement numbered in [lo, hi) is rejected. */
    predicate NoneFailed(lo: nat, hi: nat) {
      forall n :: lo <= n < hi ==> n !in failing
    }

    constructor (t: Tables, firstFreeId: nat, failing: set<nat>)
      requires IdsBelow(t, firstFreeId)
      ensures Valid()
      ensures tables == t && nextId == firstFreeId && executed == 0 && this.failing == failing
    {
      tables := t;
      nextId := firstFreeId;
      executed := 0;
      this.failing := failing;
    }

    /** `randomUUID()`: an id no table uses yet. */
    method NewId() returns (id: nat)
      modifies this
      ensures id == old(nextId) && nextId == old(nextId) + 1
      ensures tables == old(tables) && executed == old(executed)
    {
      id := nextId;
      nextId := nextId + 1;
    }

    /** `execQuery`: runs the statement, unless the server rejects it. */
    method Exec(s: Stmt) returns (ok: bool)
      modifies this
      ensures ok == (old(executed) !in failing)
      ensures executed == old(executed) + 1 && nextId == old(nextId)
      ensures tables == (if ok then Apply(old(tables), s) else old(tables))
    {
      ok := executed !in failing;
      if ok {
        tables := Apply(tables, s);
      }
      executed := executed + 1;
    }
  }

  lemma InsertKeepsResolved(t: Tables, s: Stmt)
    requires RelsResolve(t)
    requires s.InsertNumero? || s.InsertUsuario? ||
             (s.InsertRel? && s.rel.idUsuario in t.usuarios && s.rel.idNumero in t.numeros)
    ensures RelsResolve(Apply(t, s))
  {
  }

  lemma GrowsFromTrans(t0: Tables, t1: Tables, t2: Tables, b0: nat, b1: nat)
    requires GrowsFrom(t0, t1, b0) && GrowsFrom(t1, t2, b1) && b0 <= b1
    ensures GrowsFrom(t0, t2, b0)
  {
  }

  lemma NoneFailedSplit(db: ImportDb, lo: nat, mid: nat, hi: nat)
    requires lo <= mid <= hi
    ensures db.NoneFailed(lo, hi) <==> db.NoneFailed(lo, mid) && db.NoneFailed(mid, hi)
  {
  }

  /** Insert one user of a number and the relation linking it, each with a fresh id. */
  method LinkUser(db: ImportDb, u: UsuarioRow, numeroId: nat) returns (ok: bool, ghost applied: nat)
    modifies db
    ensures db.executed >= old(db.executed) && db.nextId >= old(db.nextId) + applied
    ensures ok == db.NoneFailed(old(db.executed), db.executed)
    ensures ok ==> db.nextId == old(db.nextId) + 2
    ensures RanPrefix(old(db.tables), db.tables, LinkStmts(old(db.nextId), u, numeroId), applied, ok)
  {
    ghost var two := LinkStmts(db.nextId, u, numeroId);
    ghost var t0 := db.tables;
    applied := 0;
    assert two[..0] == [];
    var usuarioId := db.NewId();
    ok := db.Exec(InsertUsuario(usuarioId, u));
    if !ok {
      return;
    }
    applied := 1;
    assert two[..1] == [two[0]] && two[..1][..0] == [];
    var relacionId := db.NewId();
    ok := db.Exec(InsertRel(relacionId, RelRow(usuarioId, numeroId)));
    if !ok {
      return;
    }
    applied := 2;
    ApplyAllTwo(t0, two[0], two[1]);
    assert two[..2] == two == [two[0], two[1]];
  }

  /** The state once the names before j are handled: the number and the users of those
      names are in, and the next id follows theirs. */
  ghost predicate NamesLinked(t0: Tables, base: nat, numero: NumeroRow, nombres: seq<Option<string>>, j: nat,
                              t: Tables, nextId: nat)
    requires j <= |nombres|
  {
    var us := UsersFromNames(nombres[..j]);
    nextId == base + 1 + 2 * |us| && t == ApplyAll(t0, FanOutPlan(base, numero, us))
  }

  /** One pass of the fixed-line loop: name j becomes the next user of number `base`
      when it is present and non-empty, and is passed over otherwise. */
  method LinkName(db: ImportDb, numero: NumeroRow, nombres: seq<Option<string>>, j: nat, ghost t0: Tables, base: nat)
    returns (ok: bool, ghost applied: nat)
    requires j < |nombres|
    requires NamesLinked(t0, base, numero, nombres, j, db.tables, db.nextId)
    modifies db
    ensures db.executed >= old(db.executed)
    ensures ok == db.NoneFailed(old(db.executed), db.executed)
    ensures ok ==> NamesLinked(t0, base, numero, nombres, j + 1, db.tables, db.nextId)
    ensures !ok ==> db.nextId >= base + applied
    ensures !ok ==> RanPrefix(t0, db.tables, FanOutPlan(base, numero, UsersFromNames(nombres)), applied, false)
  {
    ok, applied := true, 0;
    var nombreUsuario := nombres[j];
    if nombreUsuario.Some? && nombreUsuario.value != [] {
      var u := UsuarioRow(nombreUsuario.value, None);
      ghost var t1, n1 := db.tables, db.nextId;
      ghost var a;
      ok, a := LinkUser(db, u, base);
      if ok {
        NameLinked(t0, base, numero, nombres, j, t1, n1, db.tables);
      } else {
        NameRejected(t0, base, numero, nombres, j, t1, n1, a, db.tables);
        applied := n1 - base + a;
      }
    } else {
      NameSkipped(t0, base, numero, nombres, j, db.tables, db.nextId);
    }
  }

  /** A name that is absent or empty adds no user. */
  lemma NameSkipped(t0: Tables, b: nat, n: NumeroRow, nombres: seq<Option<string>>, j: nat, t: Tables, nextId: nat)
    requires j < |nombres| && !(nombres[j].Some? && nombres[j].value != [])
    requires NamesLinked(t0, b, n, nombres, j, t, nextId)
    ensures NamesLinked(t0, b, n, nombres, j + 1, t, nextId)
  {
    NextUser(nombres, j);
    assert UsersFromNames(nombres[..j + 1]) == UsersFromNames(nombres[..j]) + [] == UsersFromNames(nombres[..j]);
  }

  /** After the user of a present, non-empty name j is fully linked, the tables and the
      next id are those of the plan for the names up to and including j. */
  lemma NameLinked(t0: Tables, b: nat, n: NumeroRow, nombres: seq<Option<string>>, j: nat, t1: Tables, n1: nat, t: Tables)
    requires j < |nombres| && nombres[j].Some? && nombres[j].value != []
    requires NamesLinked(t0, b, n, nombres, j, t1, n1)
    requires t == ApplyAll(t1, LinkStmts(n1, UsuarioRow(nombres[j].value, None), b)[..2])
    ensures NamesLinked(t0, b, n, nombres, j + 1, t, n1 + 2)
  {
    NextUser(nombres, j);
    UserLinked(t0, b, n, UsersFromNames(nombres[..j]), UsuarioRow(nombres[j].value, None), t);
  }

  /** After a fully linked user, the tables are those of the plan extended by that user. */
  lemma UserLinked(t0: Tables, b: nat, n: NumeroRow, prev: seq<UsuarioRow>, u: UsuarioRow, t: Tables)
    requires t == ApplyAll(ApplyAll(t0, FanOutPlan(b, n, prev)), LinkStmts(b + 1 + 2 * |prev|, u, b)[..2])
    ensures t == ApplyAll(t0, FanOutPlan(b, n, prev + [u]))
  {
    var two := LinkStmts(b + 1 + 2 * |prev|, u, b);
    assert two[..2] == two;
    ApplyAllConcat(t0, FanOutPlan(b, n, prev), two);
    FanOutSnoc(b, n, prev, u);
  }

  /** A present, non-empty name j is the user right after those of the names before it. */
  lemma NextUserIsPrefix(nombres: seq<Option<string>>, j: nat)
    requires j < |nombres| && nombres[j].Some? && nombres[j].value != []
    ensures |UsersFromNames(nombres[..j])| < |UsersFromNames(nombres)|
    ensures UsersFromNames(nombres)[..|UsersFromNames(nombres[..j])| + 1] ==
            UsersFromNames(nombres[..j]) + [UsuarioRow(nombres[j].value, None)]
  {
    var next := UsersFromNames(nombres[..j + 1]);
    NextUser(nombres, j);
    UsersFromNamesPrefix(nombres, j + 1);
  }

  /** A rejected statement while linking name j leaves a proper prefix of the row's plan. */
  lemma NameRejected(t0: Tables, b: nat, n: NumeroRow, nombres: seq<Option<string>>, j: nat, t1: Tables, n1: nat,
                     a: nat, t: Tables)
    requires j < |nombres| && nombres[j].Some? && nombres[j].value != [] && a < 2
    requires NamesLinked(t0, b, n, nombres, j, t1, n1)
    requires t == ApplyAll(t1, LinkStmts(n1, UsuarioRow(nombres[j].value, None), b)[..a])
    ensures n1 > b
    ensures RanPrefix(t0, t, FanOutPlan(b, n, UsersFromNames(nombres)), n1 - b + a, false)
  {
    var prev := UsersFromNames(nombres[..j]);
    var u := UsuarioRow(nombres[j].value, None);
    var full := UsersFromNames(nombres);
    NextUserIsPrefix(nombres, j);
    PartialRun(t0, b, n, full, prev, u, a, t);
  }

  /** The `try` block of the fixed-line loop, given the formatted USUARIO names: insert
      the number, then each non-empty name as a user with its relation. There is no
      transaction, so a rejected statement leaves the ones before it in place. */
  method InsertFixedLine(db: ImportDb, numero: NumeroRow, nombres: seq<Option<string>>) returns (ok: bool, ghost applied: nat)
    modifies db
    ensures db.executed >= old(db.executed) && db.nextId >= old(db.nextId) + applied
    ensures ok == db.NoneFailed(old(db.executed), db.executed)
    ensures ok ==> db.nextId == old(db.nextId) + applied
    ensures RanPrefix(old(db.tables), db.tables,
                      FanOutPlan(old(db.nextId), numero, UsersFromNames(nombres)), applied, ok)
  {
    ghost var t0, base, e0 := db.tables, db.nextId, db.executed;
    ghost var full := UsersFromNames(nombres);
    applied := 0;
    var numeroId := db.NewId();
    ok := db.Exec(InsertNumero(numeroId, numero));
    if !ok {
      assert FanOutPlan(base, numero, full)[..0] == [];
      return;
    }
    assert [InsertNumero(base, numero)][..0] == [];
    var j := 0;
    while j < |nombres|
      invariant 0 <= j <= |nombres|
      invariant db.executed >= e0
      invariant NamesLinked(t0, base, numero, nombres, j, db.tables, db.nextId)
      invariant numeroId == base
      invariant ok && db.NoneFailed(e0, db.executed)
    {
      ghost var e1 := db.executed;
      ok, applied := LinkName(db, numero, nombres, j, t0, numeroId);
      if !ok {
        assert !db.NoneFailed(e0, db.executed) by {
          var n :| e1 <= n < db.executed && n in db.failing;
        }
        return;
      }
      j := j + 1;
    }
    assert nombres[..j] == nombres;
    applied := 1 + 2 * |full|;
    assert FanOutPlan(base, numero, full)[..applied] == FanOutPlan(base, numero, full);
  }

  /** One fixed-line row. A row that is not valid is skipped untouched. A valid one runs a
      prefix of its plan: all of it, and the row counts as processed, unless a statement
      is rejected, in which case the statements before it stay applied. */
  method ProcessFixedRow(db: ImportDb, row: Row, ghost start: Tables, ghost startId: nat)
    returns (processed: bool, ghost applied: nat)
    requires db.Valid() && startId <= db.nextId
    requires GrowsFrom(start, db.tables, startId) && (RelsResolve(start) ==> RelsResolve(db.tables))
    modifies db
    ensures db.Valid() && db.nextId >= old(db.nextId) && db.executed >= old(db.executed)
    ensures processed == (ValidFixedRow(row) && db.NoneFailed(old(db.executed), db.executed))
    ensures !ValidFixedRow(row) ==> db.tables == old(db.tables) && db.executed == old(db.executed) && db.nextId == old(db.nextId)
    ensures processed ==> db.nextId == old(db.nextId) + applied
    ensures ValidFixedRow(row) ==> RanPrefix(old(db.tables), db.tables, FixedPlan(row, old(db.nextId)), applied, processed)
    ensures GrowsFrom(start, db.tables, startId) && (RelsResolve(start) ==> RelsResolve(db.tables))
  {
    applied := 0;
    if row == [] {
      return false, applied;
    }
    var numeroAnexo := At(row, NumeroAnexoCol);
    if !IsValidFixedNumber(numeroAnexo) {
      return false, applied;
    }
    var usuarios := NonBlankUsers(row);
    ghost var t0, base := db.tables, db.nextId;
    processed, applied := InsertFixedLine(db, FixedNumero(row), FormatNames(usuarios));
    PlanPrefixEffect(t0, base, FixedNumero(row), FixedUsuarios(row), applied);
    IdsBelowMono(db.tables, base + applied, db.nextId);
    GrowsFromTrans(start, t0, db.tables, startId, base);
  }

  /** The `try` block of the mobile loop: insert the number, then the user and its
      relation when the formatted name is non-empty. */
  method InsertMobileLine(db: ImportDb, numero: NumeroRow, nombre: Option<string>, cargo: Option<string>)
    returns (ok: bool, ghost applied: nat)
    modifies db
    ensures db.executed >= old(db.executed) && db.nextId >= old(db.nextId) + applied
    ensures ok == db.NoneFailed(old(db.executed), db.executed)
    ensures ok ==> db.nextId == old(db.nextId) + applied
    ensures RanPrefix(old(db.tables), db.tables, FanOutPlan(old(db.nextId), numero, MobileUser(nombre, cargo)), applied, ok)
  {
    ghost var t0 := db.tables;
    ghost var base := db.nextId;
    ghost var plan := FanOutPlan(base, numero, MobileUser(nombre, cargo));
    applied := 0;
    var numeroId := db.NewId();
    ok := db.Exec(InsertNumero(numeroId, numero));
    if !ok {
      assert plan[..0] == [];
      return;
    }
    assert [InsertNumero(base, numero)][..0] == [];
    assert db.tables == ApplyAll(t0, FanOutPlan(base, numero, []));
    applied := 1;
    if nombre.Some? && nombre.value != [] {
      var u := UsuarioRow(nombre.value, cargo);
      ghost var a;
      ok, a := LinkUser(db, u, numeroId);
      ghost var two := LinkStmts(base + 1, u, base);
      assert MobileUser(nombre, cargo) == [] + [u];
      FanOutSnoc(base, numero, [], u);
      if !ok {
        assert [u][..0] == [];
        PartialRun(t0, base, numero, [u], [], u, a, db.tables);
        applied := 1 + a;
        return;
      }
      assert two[..2] == two;
      ApplyAllConcat(t0, FanOutPlan(base, numero, []), two);
      applied := 3;
    }
    assert plan[..applied] == plan;
  }

  /** One mobile row, with the same all-or-prefix behaviour as a fixed-line row. */
  method ProcessMobileRow(db: ImportDb, row: Row, ghost start: Tables, ghost startId: nat)
    returns (processed: bool, ghost applied: nat)
    requires db.Valid() && startId <= db.nextId
    requires GrowsFrom(start, db.tables, startId) && (RelsResolve(start) ==> RelsResolve(db.tables))
    modifies db
    ensures db.Valid() && db.nextId >= old(db.nextId) && db.executed >= old(db.executed)
    ensures processed == (ValidMobileRow(row) && db.NoneFailed(old(db.executed), db.executed))
    ensures !ValidMobileRow(row) ==> db.tables == old(db.tables) && db.executed == old(db.executed) && db.nextId == old(db.nextId)
    ensures processed ==> db.nextId == old(db.nextId) + applied
    ensures ValidMobileRow(row) ==>
      RanPrefix(old(db.tables), db.tables, MobilePlan(row, old(db.nextId)), applied, processed)
    ensures GrowsFrom(start, db.tables, startId) && (RelsResolve(start) ==> RelsResolve(db.tables))
  {
    applied := 0;
    if row == [] {
      return false, applied;
    }
    var chipNumeroMovil := At(row, ChipNumeroCol);
    var estadoLinea := EstadoLinea(At(row, EstadoLineaCol));
    if estadoLinea != "HABILITADO" {
      return false, applied;
    }
    if !IsValidCellNumber(chipNumeroMovil) {
      return false, applied;
    }
    var nombreFormateado := FormatField(At(row, NombreCol), 50);
    var cargoFormateado := FormatField(At(row, CargoCol), 50);
    ghost var t0, base := db.tables, db.nextId;
    processed, applied := InsertMobileLine(db, MobileNumero(row), nombreFormateado, cargoFormateado);
    PlanPrefixEffect(t0, base, MobileNumero(row), MobileUsuarios(row), applied);
    IdsBelowMono(db.tables, base + applied, db.nextId);
    GrowsFromTrans(start, t0, db.tables, startId, base);
  }

  // ---------------------------------------------------------------- whole sheets

  /** The two sheets the import reads: TELEFONOS FIJOS and TELEFONOS CELULARES. */
  datatype Sheet = Fijos | Celulares

  /** Which rows of the sheet are inserted rather than skipped. */
  function ValidRowOf(sheet: Sheet): Row -> bool {
    match sheet
    case Fijos => ValidFixedRow
    case Celulares => ValidMobileRow
  }

  /** What a row inserts: its number and its users. */
  datatype Entry = Entry(numero: NumeroRow, usuarios: seq<UsuarioRow>)

  /** The entry of a valid row; an invalid row has none. */
  function RowEntry(sheet: Sheet, row: Row): Option<Entry> {
    match sheet
    case Fijos => if ValidFixedRow(row) then Some(Entry(FixedNumero(row), FixedUsuarios(row))) else None
    case Celulares => if ValidMobileRow(row) then Some(Entry(MobileNumero(row), MobileUsuarios(row))) else None
  }

  function Entries(sheet: Sheet, rows: seq<Row>): (es: seq<Option<Entry>>)
    ensures |es| == |rows|
  {
    seq(|rows|, i requires 0 <= i < |rows| => RowEntry(sheet, rows[i]))
  }

  /** The statements of one entry, its number taking id `b`. */
  function EntryPlan(e: Option<Entry>, b: nat): seq<Stmt> {
    match e
    case None => []
    case Some(en) => FanOutPlan(b, en.numero, en.usuarios)
  }

  /** How many ids an entry's plan uses. */
  function EntrySize(e: Option<Entry>): nat {
    match e
    case None => 0
    case Some(en) => 1 + 2 * |en.usuarios|
  }

  /** The id the number of entry n gets: the one after the ids of the entries before it. */
  function EntryBase(es: seq<Option<Entry>>, base: nat, n: nat): nat
    requires n <= |es|
  {
    if n == 0 then base else EntryBase(es, base, n - 1) + EntrySize(es[n - 1])
  }

  /** The tables once the first `n` entries ran with nothing rejected: each entry's plan
      in row order, starting at its own base. */
  function TablesAfter(t: Tables, es: seq<Option<Entry>>, n: nat, base: nat): Tables
    requires n <= |es|
  {
    if n == 0 then t else ApplyAll(TablesAfter(t, es, n - 1, base), EntryPlan(es[n - 1], EntryBase(es, base, n - 1)))
  }

  /** The tables and next id after a whole sheet's loop with nothing rejected. */
  function SheetTables(t: Tables, sheet: Sheet, rows: seq<Row>, base: nat): Tables {
    TablesAfter(t, Entries(sheet, rows), |rows|, base)
  }

  function SheetNextId(sheet: Sheet, rows: seq<Row>, base: nat): nat {
    EntryBase(Entries(sheet, rows), base, |rows|)
  }

  /** The same statements as one plan: the plan of each entry, concatenated in row order. */
  function EntriesPlan(es: seq<Option<Entry>>, n: nat, base: nat): seq<Stmt>
    requires n <= |es|
  {
    if n == 0 then [] else EntriesPlan(es, n - 1, base) + EntryPlan(es[n - 1], EntryBase(es, base, n - 1))
  }

  /** How many of the first `n` entries are present. */
  function PresentCount(es: seq<Option<Entry>>, n: nat): nat
    requires n <= |es|
  {
    if n == 0 then 0 else PresentCount(es, n - 1) + (if es[n - 1].Some? then 1 else 0)
  }

  /** Running the entries one by one is running their concatenated plan, whose length is
      the number of ids they use. */
  lemma {:induction false} TablesAfterIsPlan(t: Tables, es: seq<Option<Entry>>, n: nat, base: nat)
    requires n <= |es|
    ensures TablesAfter(t, es, n, base) == ApplyAll(t, EntriesPlan(es, n, base))
    ensures EntryBase(es, base, n) == base + |EntriesPlan(es, n, base)|
  {
    if n > 0 {
      TablesAfterIsPlan(t, es, n - 1, base);
      var front, plan := EntriesPlan(es, n - 1, base), EntryPlan(es[n - 1], EntryBase(es, base, n - 1));
      ApplyAllConcat(t, front, plan);
      assert EntriesPlan(es, n, base) == front + plan;
    }
  }

  /** Number `n` is at id b, and each user of `us` at id b+1+2j together with its relation
      to number b at id b+2+2j. */
  ghost predicate RowStored(t: Tables, b: nat, n: NumeroRow, us: seq<UsuarioRow>) {
    b in t.numeros && t.numeros[b] == n &&
    forall j :: 0 <= j < |us| ==>
      b + 1 + 2 * j in t.usuarios && t.usuarios[b + 1 + 2 * j] == us[j] &&
      b + 2 + 2 * j in t.rels && t.rels[b + 2 + 2 * j] == RelRow(b + 1 + 2 * j, b)
  }

  /** Each of the first `n` present entries is stored at its own ids. */
  ghost predicate AllStored(t: Tables, es: seq<Option<Entry>>, n: nat, base: nat)
    requires n <= |es|
  {
    forall i :: 0 <= i < n && es[i].Some? ==>
      RowStored(t, EntryBase(es, base, i), es[i].value.numero, es[i].value.usuarios)
  }

  lemma FannedOutStored(t: Tables, t2: Tables, b: nat, n: NumeroRow, us: seq<UsuarioRow>)
    requires FannedOut(t, t2, b, n, us)
    ensures RowStored(t2, b, n, us)
  {
    forall j | 0 <= j < |us|
      ensures b + 1 + 2 * j in t2.usuarios && b + 2 + 2 * j in t2.rels
    {
      assert IsUserSlot(b, |us|, b + 1 + 2 * j);
      assert IsRelSlot(b, |us|, b + 2 + 2 * j);
    }
  }

  lemma AllStoredKept(t: Tables, t2: Tables, es: seq<Option<Entry>>, n: nat, base: nat)
    requires n <= |es| && AllStored(t, es, n, base) && Keeps(t, t2)
    ensures AllStored(t2, es, n, base)
  {
  }

  /** One entry's plan, run over tables whose ids are all below its base: the rows there
      stay, one number is added, and the entry is stored at its ids. */
  lemma EntryPlanEffect(t1: Tables, e: Entry, b1: nat)
    requires IdsBelow(t1, b1)
    ensures var plan := FanOutPlan(b1, e.numero, e.usuarios);
      var t2 := ApplyAll(t1, plan);
      IdsBelow(t2, b1 + |plan|) && GrowsFrom(t1, t2, b1) && (RelsResolve(t1) ==> RelsResolve(t2)) &&
      |t2.numeros| == |t1.numeros| + 1 && RowStored(t2, b1, e.numero, e.usuarios)
  {
    var plan := FanOutPlan(b1, e.numero, e.usuarios);
    var t2 := ApplyAll(t1, plan);
    FanOutEffect(t1, b1, e.numero, e.usuarios);
    FannedOutStored(t1, t2, b1, e.numero, e.usuarios);
    PlanPrefixEffect(t1, b1, e.numero, e.usuarios, |plan|);
    assert plan[..|plan|] == plan;
    assert b1 !in t1.numeros;
  }

  /** What running the first `n` entries did to tables `t` whose ids were all below `b`:
      every id is below the next base, the old rows stay and new ones are only at ids
      from `b` on, relations still resolve, and one number was added per present entry. */
  ghost predicate Grown(t: Tables, es: seq<Option<Entry>>, n: nat, b: nat)
    requires n <= |es|
  {
    var t2 := TablesAfter(t, es, n, b);
    (n > 0 ==> Grown(t, es, n - 1, b)) &&
    IdsBelow(t2, EntryBase(es, b, n)) && GrowsFrom(t, t2, b) && b <= EntryBase(es, b, n) &&
    (RelsResolve(t) ==> RelsResolve(t2)) &&
    |t2.numeros| == |t.numeros| + PresentCount(es, n)
  }

  lemma GrowthStep(t: Tables, es: seq<Option<Entry>>, k: nat, b: nat)
    requires k < |es| && Grown(t, es, k, b)
    ensures Grown(t, es, k + 1, b)
  {
    if es[k].Some? {
      GrowthPresent(t, es, k, b);
    } else {
      assert TablesAfter(t, es, k + 1, b) == TablesAfter(t, es, k, b);
    }
  }

  lemma GrowthPresent(t: Tables, es: seq<Option<Entry>>, k: nat, b: nat)
    requires k < |es| && es[k].Some? && Grown(t, es, k, b)
    ensures Grown(t, es, k + 1, b)
  {
    var e, b1 := es[k].value, EntryBase(es, b, k);
    assert TablesAfter(t, es, k + 1, b) == ApplyAll(TablesAfter(t, es, k, b), FanOutPlan(b1, e.numero, e.usuarios));
    GrowthAdd(t, TablesAfter(t, es, k, b), b, b1, e);
  }

  lemma GrowthAdd(t: Tables, t1: Tables, b: nat, b1: nat, e: Entry)
    requires IdsBelow(t1, b1) && GrowsFrom(t, t1, b) && b <= b1
    requires RelsResolve(t) ==> RelsResolve(t1)
    ensures var plan := FanOutPlan(b1, e.numero, e.usuarios);
      var t2 := ApplyAll(t1, plan);
      IdsBelow(t2, b1 + |plan|) && GrowsFrom(t, t2, b) &&
      (RelsResolve(t) ==> RelsResolve(t2)) && |t2.numeros| == |t1.numeros| + 1
  {
    var t2 := ApplyAll(t1, FanOutPlan(b1, e.numero, e.usuarios));
    EntryPlanEffect(t1, e, b1);
    GrowsFromTrans(t, t1, t2, b, b1);
  }

  /** Entry k, present, run over tables that store the entries before it, is stored too,
      and the earlier ones stay stored. */
  lemma StoredAdd(t1: Tables, es: seq<Option<Entry>>, k: nat, b: nat, e: Entry)
    requires k < |es| && es[k] == Some(e)
    requires IdsBelow(t1, EntryBase(es, b, k))
    requires AllStored(t1, es, k, b)
    ensures AllStored(ApplyAll(t1, FanOutPlan(EntryBase(es, b, k), e.numero, e.usuarios)), es, k + 1, b)
  {
    var b1 := EntryBase(es, b, k);
    var t2 := ApplyAll(t1, FanOutPlan(b1, e.numero, e.usuarios));
    EntryPlanEffect(t1, e, b1);
    AllStoredKept(t1, t2, es, k, b);
  }

  /** The first k+1 entries are stored after they ran, given that the first k were
      stored after they ran. */
  lemma StoredStep(t: Tables, es: seq<Option<Entry>>, k: nat, b: nat)
    requires k < |es| && Grown(t, es, k, b)
    requires AllStored(TablesAfter(t, es, k, b), es, k, b)
    ensures AllStored(TablesAfter(t, es, k + 1, b), es, k + 1, b)
  {
    if es[k].Some? {
      StoredAdd(TablesAfter(t, es, k, b), es, k, b, es[k].value);
    }
  }

  lemma {:induction false} EntriesGrowth(t: Tables, es: seq<Option<Entry>>, n: nat, b: nat)
    requires n <= |es| && IdsBelow(t, b)
    ensures Grown(t, es, n, b)
  {
    if n > 0 {
      EntriesGrowth(t, es, n - 1, b);
      GrowthStep(t, es, n - 1, b);
    }
  }

  lemma {:induction false} EntriesStored(t: Tables, es: seq<Option<Entry>>, n: nat, b: nat)
    requires n <= |es| && IdsBelow(t, b)
    ensures AllStored(TablesAfter(t, es, n, b), es, n, b)
  {
    if n > 0 {
      EntriesGrowth(t, es, n - 1, b);
      EntriesStored(t, es, n - 1, b);
      StoredStep(t, es, n - 1, b);
    }
  }

  /** Running a sheet's first `n` entries over tables whose ids are all below `b` keeps
      every row already there, adds rows only at ids from `b` on, keeps the relations
      resolving, adds exactly one number per present entry, and stores each present entry
      with its users and their relations at that entry's own ids. */
  lemma EntriesEffect(t: Tables, es: seq<Option<Entry>>, n: nat, b: nat)
    requires n <= |es| && IdsBelow(t, b)
    ensures var t2 := TablesAfter(t, es, n, b);
      IdsBelow(t2, EntryBase(es, b, n)) && GrowsFrom(t, t2, b) &&
      (RelsResolve(t) ==> RelsResolve(t2)) &&
      |t2.numeros| == |t.numeros| + PresentCount(es, n) &&
      AllStored(t2, es, n, b)
  {
    EntriesGrowth(t, es, n, b);
    EntriesStored(t, es, n, b);
  }

  /** A row has an entry exactly when it is valid, so the present entries among the
      first `n` are counted like the valid rows among them. */
  lemma {:induction false} EntriesCount(sheet: Sheet, rows: seq<Row>, n: nat)
    requires n <= |rows|
    ensures PresentCount(Entries(sheet, rows), n) == Filtering.Count(rows[..n], ValidRowOf(sheet))
  {
    if n > 0 {
      EntriesCount(sheet, rows, n - 1);
      assert rows[..n][..n - 1] == rows[..n - 1];
      assert Entries(sheet, rows)[n - 1] == RowEntry(sheet, rows[n - 1]);
    }
  }

  /** The tables and next id once the first `i` entries ran with nothing rejected. */
  ghost predicate EntriesRan(t0: Tables, n0: nat, es: seq<Option<Entry>>, i: nat, t: Tables, nextId: nat)
    requires i <= |es|
  {
    t == TablesAfter(t0, es, i, n0) && nextId == EntryBase(es, n0, i)
  }

  /** A row processed with nothing rejected, or an invalid row skipped, extends the run
      by that row's entry. */
  lemma EntriesRanStep(t0: Tables, n0: nat, es: seq<Option<Entry>>, i: nat, t1: Tables, n1: nat,
                       t: Tables, n: nat, applied: nat)
    requires i < |es| && EntriesRan(t0, n0, es, i, t1, n1)
    requires es[i].None? ==> t == t1 && n == n1
    requires es[i].Some? ==>
      RanPrefix(t1, t, FanOutPlan(n1, es[i].value.numero, es[i].value.usuarios), applied, true) && n == n1 + applied
    ensures EntriesRan(t0, n0, es, i + 1, t, n)
  {
    if es[i].Some? {
      var plan := FanOutPlan(n1, es[i].value.numero, es[i].value.usuarios);
      assert plan[..applied] == plan;
    }
  }

  /** A fixed-line row processed with nothing rejected, or skipped as invalid, extends
      the run by its entry. */
  lemma FixedRowRan(t0: Tables, n0: nat, rows: seq<Row>, i: nat, t1: Tables, n1: nat, t: Tables, n: nat, applied: nat)
    requires i < |rows| && EntriesRan(t0, n0, Entries(Fijos, rows), i, t1, n1)
    requires !ValidFixedRow(rows[i]) ==> t == t1 && n == n1
    requires ValidFixedRow(rows[i]) ==> RanPrefix(t1, t, FixedPlan(rows[i], n1), applied, true) && n == n1 + applied
    ensures EntriesRan(t0, n0, Entries(Fijos, rows), i + 1, t, n)
  {
    var es := Entries(Fijos, rows);
    assert es[i] == RowEntry(Fijos, rows[i]);
    EntriesRanStep(t0, n0, es, i, t1, n1, t, n, applied);
  }

  /** The same for a mobile row. */
  lemma MobileRowRan(t0: Tables, n0: nat, rows: seq<Row>, i: nat, t1: Tables, n1: nat, t: Tables, n: nat, applied: nat)
    requires i < |rows| && EntriesRan(t0, n0, Entries(Celulares, rows), i, t1, n1)
    requires !ValidMobileRow(rows[i]) ==> t == t1 && n == n1
    requires ValidMobileRow(rows[i]) ==> RanPrefix(t1, t, MobilePlan(rows[i], n1), applied, true) && n == n1 + applied
    ensures EntriesRan(t0, n0, Entries(Celulares, rows), i + 1, t, n)
  {
    var es := Entries(Celulares, rows);
    assert es[i] == RowEntry(Celulares, rows[i]);
    EntriesRanStep(t0, n0, es, i, t1, n1, t, n, applied);
  }

  /** One iteration of the fixed-line loop: the processed count stays below the valid
      rows seen, and while nothing has been rejected it equals them and the tables are
      those of the entries so far. */
  lemma FixedStep(rows: seq<Row>, i: nat, count: nat, ok: bool, exact: bool, t0: Tables, n0: nat,
                  t1: Tables, n1: nat, t: Tables, n: nat, applied: nat)
    requires i < |rows| && count <= Filtering.Count(rows[..i], ValidFixedRow)
    requires exact ==> count == Filtering.Count(rows[..i], ValidFixedRow) && EntriesRan(t0, n0, Entries(Fijos, rows), i, t1, n1)
    requires ok ==> ValidFixedRow(rows[i])
    requires exact ==> (ok <==> ValidFixedRow(rows[i]))
    requires exact && !ValidFixedRow(rows[i]) ==> t == t1 && n == n1
    requires exact && ValidFixedRow(rows[i]) ==> RanPrefix(t1, t, FixedPlan(rows[i], n1), applied, true) && n == n1 + applied
    ensures count + (if ok then 1 else 0) <= Filtering.Count(rows[..i + 1], ValidFixedRow)
    ensures exact ==>
      count + (if ok then 1 else 0) == Filtering.Count(rows[..i + 1], ValidFixedRow) &&
      EntriesRan(t0, n0, Entries(Fijos, rows), i + 1, t, n)
  {
    Filtering.CountStep(rows, i, ValidFixedRow, count, ok, exact);
    if exact {
      FixedRowRan(t0, n0, rows, i, t1, n1, t, n, applied);
    }
  }

  /** The same for the mobile loop. */
  lemma MobileStep(rows: seq<Row>, i: nat, count: nat, ok: bool, exact: bool, t0: Tables, n0: nat,
                   t1: Tables, n1: nat, t: Tables, n: nat, applied: nat)
    requires i < |rows| && count <= Filtering.Count(rows[..i], ValidMobileRow)
    requires exact ==> count == Filtering.Count(rows[..i], ValidMobileRow) && EntriesRan(t0, n0, Entries(Celulares, rows), i, t1, n1)
    requires ok ==> ValidMobileRow(rows[i])
    requires exact ==> (ok <==> ValidMobileRow(rows[i]))
    requires exact && !ValidMobileRow(rows[i]) ==> t == t1 && n == n1
    requires exact && ValidMobileRow(rows[i]) ==> RanPrefix(t1, t, MobilePlan(rows[i], n1), applied, true) && n == n1 + applied
    ensures count + (if ok then 1 else 0) <= Filtering.Count(rows[..i + 1], ValidMobileRow)
    ensures exact ==>
      count + (if ok then 1 else 0) == Filtering.Count(rows[..i + 1], ValidMobileRow) &&
      EntriesRan(t0, n0, Entries(Celulares, rows), i + 1, t, n)
  {
    Filtering.CountStep(rows, i, ValidMobileRow, count, ok, exact);
    if exact {
      MobileRowRan(t0, n0, rows, i, t1, n1, t, n, applied);
    }
  }

  /** Row i of the fixed-line loop, processed with what the loop knows before and after it:
      the count of processed rows stays below the valid rows seen, and while nothing has
      been rejected it equals them and the tables are those of the entries so far. */
  method ProcessFixedAt(db: ImportDb, rows: seq<Row>, i: nat, count: nat, ghost t0: Tables, ghost n0: nat, ghost e0: nat)
    returns (ok: bool)
    requires i < |rows| && db.Valid() && db.nextId >= n0 && db.executed >= e0
    requires count <= Filtering.Count(rows[..i], ValidFixedRow)
    requires db.NoneFailed(e0, db.executed) ==>
      count == Filtering.Count(rows[..i], ValidFixedRow) && EntriesRan(t0, n0, Entries(Fijos, rows), i, db.tables, db.nextId)
    requires RelsResolve(t0) ==> RelsResolve(db.tables)
    requires GrowsFrom(t0, db.tables, n0)
    modifies db
    ensures db.Valid() && db.nextId >= n0 && db.executed >= e0
    ensures count + (if ok then 1 else 0) <= Filtering.Count(rows[..i + 1], ValidFixedRow)
    ensures db.NoneFailed(e0, db.executed) ==>
      count + (if ok then 1 else 0) == Filtering.Count(rows[..i + 1], ValidFixedRow) &&
      EntriesRan(t0, n0, Entries(Fijos, rows), i + 1, db.tables, db.nextId)
    ensures RelsResolve(t0) ==> RelsResolve(db.tables)
    ensures GrowsFrom(t0, db.tables, n0)
  {
    ghost var e1, t1, n1 := db.executed, db.tables, db.nextId;
    ghost var applied;
    ok, applied := ProcessFixedRow(db, rows[i], t0, n0);
    NoneFailedSplit(db, e0, e1, db.executed);
    FixedStep(rows, i, count, ok, db.NoneFailed(e0, db.executed), t0, n0, t1, n1, db.tables, db.nextId, applied);
  }

  /** Row i of the mobile loop, processed with what the loop knows before and after it:
      the count of processed rows stays below the valid rows seen, and while nothing has
      been rejected it equals them and the tables are those of the entries so far. */
  method ProcessMobileAt(db: ImportDb, rows: seq<Row>, i: nat, count: nat, ghost t0: Tables, ghost n0: nat, ghost e0: nat)
    returns (ok: bool)
    requires i < |rows| && db.Valid() && db.nextId >= n0 && db.executed >= e0
    requires count <= Filtering.Count(rows[..i], ValidMobileRow)
    requires db.NoneFailed(e0, db.executed) ==>
      count == Filtering.Count(rows[..i], ValidMobileRow) && EntriesRan(t0, n0, Entries(Celulares, rows), i, db.tables, db.nextId)
    requires RelsResolve(t0) ==> RelsResolve(db.tables)
    requires GrowsFrom(t0, db.tables, n0)
    modifies db
    ensures db.Valid() && db.nextId >= n0 && db.executed >= e0
    ensures count + (if ok then 1 else 0) <= Filtering.Count(rows[..i + 1], ValidMobileRow)
    ensures db.NoneFailed(e0, db.executed) ==>
      count + (if ok then 1 else 0) == Filtering.Count(rows[..i + 1], ValidMobileRow) &&
      EntriesRan(t0, n0, Entries(Celulares, rows), i + 1, db.tables, db.nextId)
    ensures RelsResolve(t0) ==> RelsResolve(db.tables)
    ensures GrowsFrom(t0, db.tables, n0)
  {
    ghost var e1, t1, n1 := db.executed, db.tables, db.nextId;
    ghost var applied;
    ok, applied := ProcessMobileRow(db, rows[i], t0, n0);
    NoneFailedSplit(db, e0, e1, db.executed);
    MobileStep(rows, i, count, ok, db.NoneFailed(e0, db.executed), t0, n0, t1, n1, db.tables, db.nextId, applied);
  }

  /** The rows the fixed-line loop examines: all but the header row. */
  function FixedCandidates(data: seq<Row>): seq<Row> {
    if |data| < 2 then [] else data[1..]
  }

  /** The rows the mobile loop examines: all but the two header rows. */
  function MobileCandidates(data: seq<Row>): seq<Row> {
    if |data| < 3 then [] else data[2..]
  }

  /** `procesarTelefonosFijos`. Every examined row is counted exactly once, as processed or
      as skipped; no more rows are processed than are valid, and all valid rows are when
      the server rejects nothing. */
  method ProcessFixedLines(db: ImportDb, data: seq<Row>) returns (counts: Counts)
    requires db.Valid()
    modifies db
    ensures db.Valid() && db.nextId >= old(db.nextId) && db.executed >= old(db.executed)
    ensures counts.processed + counts.skipped == |FixedCandidates(data)|
    ensures counts.processed <= Filtering.Count(FixedCandidates(data), ValidFixedRow)
    ensures db.NoneFailed(old(db.executed), db.executed) ==>
      counts.processed == Filtering.Count(FixedCandidates(data), ValidFixedRow)
    ensures old(RelsResolve(db.tables)) ==> RelsResolve(db.tables)
    ensures GrowsFrom(old(db.tables), db.tables, old(db.nextId))
    ensures db.NoneFailed(old(db.executed), db.executed) ==>
      db.tables == SheetTables(old(db.tables), Fijos, FixedCandidates(data), old(db.nextId)) &&
      db.nextId == SheetNextId(Fijos, FixedCandidates(data), old(db.nextId))
  {
    if |data| < 2 {
      return Counts(0, 0);
    }
    var rows := data[1..];
    ghost var t0, n0, e0 := db.tables, db.nextId, db.executed;
    var processedCount, skippedCount := 0, 0;
    var i := 0;
    while i < |rows|
      invariant 0 <= i <= |rows|
      invariant processedCount + skippedCount == i
      invariant db.Valid() && db.nextId >= n0 && db.executed >= e0
      invariant processedCount <= Filtering.Count(rows[..i], ValidFixedRow)
      invariant db.NoneFailed(e0, db.executed) ==>
        processedCount == Filtering.Count(rows[..i], ValidFixedRow) && EntriesRan(t0, n0, Entries(Fijos, rows), i, db.tables, db.nextId)
      invariant RelsResolve(t0) ==> RelsResolve(db.tables)
      invariant GrowsFrom(t0, db.tables, n0)
    {
      var ok := ProcessFixedAt(db, rows, i, processedCount, t0, n0, e0);
      if ok {
        processedCount := processedCount + 1;
      } else {
        skippedCount := skippedCount + 1;
      }
      i := i + 1;
    }
    assert rows[..i] == rows;
    return Counts(processedCount, skippedCount);
  }

  /** `procesarTelefonosCelulares`, with the same counting guarantees. */
  method ProcessMobileLines(db: ImportDb, data: seq<Row>) returns (counts: Counts)
    requires db.Valid()
    modifies db
    ensures db.Valid() && db.nextId >= old(db.nextId) && db.executed >= old(db.executed)
    ensures counts.processed + counts.skipped == |MobileCandidates(data)|
    ensures counts.processed <= Filtering.Count(MobileCandidates(data), ValidMobileRow)
    ensures db.NoneFailed(old(db.executed), db.executed) ==>
      counts.processed == Filtering.Count(MobileCandidates(data), ValidMobileRow)
    ensures old(RelsResolve(db.tables)) ==> RelsResolve(db.tables)
    ensures GrowsFrom(old(db.tables), db.tables, old(db.nextId))
    ensures db.NoneFailed(old(db.executed), db.executed) ==>
      db.tables == SheetTables(old(db.tables), Celulares, MobileCandidates(data), old(db.nextId)) &&
      db.nextId == SheetNextId(Celulares, MobileCandidates(data), old(db.nextId))
  {
    if |data| < 3 {
      return Counts(0, 0);
    }
    var rows := data[2..];
    ghost var t0, n0, e0 := db.tables, db.nextId, db.executed;
    var processedCount, skippedCount := 0, 0;
    var i := 0;
    while i < |rows|
      invariant 0 <= i <= |rows|
      invariant processedCount + skippedCount == i
      invariant db.Valid() && db.nextId >= n0 && db.executed >= e0
      invariant processedCount <= Filtering.Count(rows[..i], ValidMobileRow)
      invariant db.NoneFailed(e0, db.executed) ==>
        processedCount == Filtering.Count(rows[..i], ValidMobileRow) && EntriesRan(t0, n0, Entries(Celulares, rows), i, db.tables, db.nextId)
      invariant RelsResolve(t0) ==> RelsResolve(db.tables)
      invariant GrowsFrom(t0, db.tables, n0)
    {
      var ok := ProcessMobileAt(db, rows, i, processedCount, t0, n0, e0);
      if ok {
        processedCount := processedCount + 1;
      } else {
        skippedCount := skippedCount + 1;
      }
      i := i + 1;
    }
    assert rows[..i] == rows;
    return Counts(processedCount, skippedCount);
  }

  /** The clearing order of `run`: relations first, then users, then numbers. */
  const ClearOrder := [ClearRels, ClearUsuarios, ClearNumeros]

  /** Clearing relation-first keeps referential integrity after every step, whatever the
      tables held. */
  lemma ClearOrderKeepsResolved(t: Tables, k: nat)
    requires k <= |ClearOrder|
    ensures RelsResolve(ApplyAll(t, ClearOrder[..k])) || (k == 0 && !RelsResolve(t))
  {
    if k > 0 {
      ApplyAllStep(t, ClearOrder, k - 1);
      if k > 1 {
        ApplyAllStep(t, ClearOrder, k - 2);
      }
      if k > 2 {
        ApplyAllStep(t, ClearOrder, 0);
      }
      assert ClearOrder[..1] == [ClearRels];
      assert ApplyAll(t, ClearOrder[..1]).rels == map[];
    }
  }

  /** Clearing the users before the relations would leave a relation pointing nowhere. */
  lemma UsersFirstBreaksIntegrity()
    ensures exists t :: RelsResolve(t) && !RelsResolve(Apply(t, ClearUsuarios))
  {
    var n := NumeroRow("1234", "Fijo", None, None, None);
    var t := Tables(map[0 := n], map[1 := UsuarioRow("Ana", None)], map[2 := RelRow(1, 0)]);
    assert RelsResolve(t);
    assert 2 in Apply(t, ClearUsuarios).rels;
  }

  const EmptyTables := Tables(map[], map[], map[])

  /** What a completed import leaves when the server rejects nothing: the fixed lines'
      entries run over the cleared tables from the first free id, then the mobile lines'
      entries from the id after them. */
  function ImportedTables(fijos: seq<Row>, celulares: seq<Row>, base: nat): Tables {
    var fixed := FixedCandidates(fijos);
    SheetTables(SheetTables(EmptyTables, Fijos, fixed, base), Celulares, MobileCandidates(celulares),
                SheetNextId(Fijos, fixed, base))
  }

  /** After a completed import with nothing rejected the relations resolve, there is one
      number per valid row of either sheet, and every valid row is stored with its users
      and their relations at its own ids: the fixed lines from the first free id on, the
      mobile lines after them. */
  lemma ImportEffect(fijos: seq<Row>, celulares: seq<Row>, base: nat)
    ensures var t := ImportedTables(fijos, celulares, base);
      var fixed, mobile := FixedCandidates(fijos), MobileCandidates(celulares);
      RelsResolve(t) &&
      |t.numeros| == Filtering.Count(fixed, ValidFixedRow) + Filtering.Count(mobile, ValidMobileRow) &&
      AllStored(t, Entries(Fijos, fixed), |fixed|, base) &&
      AllStored(t, Entries(Celulares, mobile), |mobile|, SheetNextId(Fijos, fixed, base))
  {
    var fixed, mobile := FixedCandidates(fijos), MobileCandidates(celulares);
    var esF, esM := Entries(Fijos, fixed), Entries(Celulares, mobile);
    var t1 := SheetTables(EmptyTables, Fijos, fixed, base);
    var t2 := ImportedTables(fijos, celulares, base);
    EntriesEffect(EmptyTables, esF, |fixed|, base);
    EntriesEffect(t1, esM, |mobile|, SheetNextId(Fijos, fixed, base));
    AllStoredKept(t1, t2, esF, |fixed|, base);
    EntriesCount(Fijos, fixed, |fixed|);
    EntriesCount(Celulares, mobile, |mobile|);
    assert fixed[..|fixed|] == fixed && mobile[..|mobile|] == mobile;
  }

  /** `run`: clear the three tables relation-first, then import the fixed lines and the
      mobile lines. A rejected clearing statement ends the run with no rows imported.
      After a completed run every row in the tables was inserted by this run, and the
      relations resolve. */
  method Run(db: ImportDb, fijos: seq<Row>, celulares: seq<Row>)
    returns (result: Option<(Counts, Counts)>)
    requires db.Valid()
    modifies db
    ensures db.Valid()
    ensures result.Some? <==> db.NoneFailed(old(db.executed), old(db.executed) + 3)
    ensures result.None? ==> db.nextId == old(db.nextId)
    ensures old(RelsResolve(db.tables)) ==> RelsResolve(db.tables)
    ensures result.Some? ==> RelsResolve(db.tables)
    ensures result.Some? ==>
      (forall id :: id in db.tables.numeros ==> id >= old(db.nextId)) &&
      (forall id :: id in db.tables.usuarios ==> id >= old(db.nextId)) &&
      (forall id :: id in db.tables.rels ==> id >= old(db.nextId))
    ensures result.Some? ==>
      result.value.0.processed + result.value.0.skipped == |FixedCandidates(fijos)| &&
      result.value.1.processed + result.value.1.skipped == |MobileCandidates(celulares)|
    ensures result.Some? && db.NoneFailed(old(db.executed), db.executed) ==>
      db.tables == ImportedTables(fijos, celulares, old(db.nextId))
  {
    ghost var e0, n0 := db.executed, db.nextId;
    var ok := db.Exec(ClearRels);
    if !ok {
      return None;
    }
    ok := db.Exec(ClearUsuarios);
    if !ok {
      return None;
    }
    ok := db.Exec(ClearNumeros);
    if !ok {
      return None;
    }
    assert db.tables == EmptyTables;
    assert db.NoneFailed(e0, e0 + 3);
    ghost var e3 := db.executed;
    var resultadosFijos := ProcessFixedLines(db, fijos);
    ghost var e4 := db.executed;
    var resultadosCelulares := ProcessMobileLines(db, celulares);
    NoneFailedSplit(db, e0, e3, db.executed);
    NoneFailedSplit(db, e3, e4, db.executed);
    return Some((resultadosFijos, resultadosCelulares));
  }
}
