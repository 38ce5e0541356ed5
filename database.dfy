/** The query executor of the web application: which positional parameter is treated as
    a monetary amount, how parameters are bound to the request, and how result rows are
    built. The SQL text is described by the parts the executor looks at; the connection
    and the server are left out, and the server's answer is an input. */
module Database {
  import opened Options
  import opened Text
  import Filtering

  /** `MAX_SAFE_INTEGER`, 2^53 - 1. */
  const MaxSafe: int := 9007199254740991

  /** `BIGINT_FIELDS`. */
  const BigintFields: seq<string> := ["monto", "aporte_total", "aporte_municipal", "aporte_terceros"]

  /** `CALCULATED_MONTO_FIELDS`. */
  const CalculatedMontoFields: seq<string> := [
    "monto_total", "monto_programas", "monto_gestion_interna", "programas_total",
    "gestion_interna_total", "programas_count", "gestion_interna_count"]

  predicate IsMontoField(name: string) {
    name in BigintFields || name in CalculatedMontoFields
  }

  /** The name the i-th parameter is bound under: `param1`, `param2`, ... */
  function ParamName(i: nat): (r: string)
    ensures |r| > 5 && r[..5] == "param"
  {
    "param" + NatToString(i + 1)
  }

  /** The names bound when the first `n` parameters are all bound. */
  function BoundNames(n: nat): set<string> {
    set i | 0 <= i < n :: ParamName(i)
  }

  /** A statement runs only when every placeholder it uses has been bound; an undeclared
      `@name` is an error from the server. */
  predicate Runs(placeholders: set<string>, paramCount: nat) {
    placeholders <= BoundNames(paramCount)
  }

  /** A placeholder that does not start with `param` is never bound, whatever the number
      of parameters. */
  lemma NeverBound(placeholder: string, paramCount: nat)
    requires |placeholder| < 5 || placeholder[..5] != "param"
    ensures placeholder !in BoundNames(paramCount)
  {
    forall i | 0 <= i < paramCount
      ensures ParamName(i) != placeholder
    {
      assert ParamName(i)[..5] == "param";
    }
  }

  lemma FirstNamesBound(n: nat)
    requires 1 <= n
    ensures "param1" in BoundNames(n)
  {
    assert ParamName(0) == "param1";
  }

  lemma SecondNameBound(n: nat)
    requires 2 <= n
    ensures "param2" in BoundNames(n)
  {
    assert ParamName(1) == "param2";
  }

  // ---------------------------------------------------------------------------------
  // detectMontoFieldFromQuery

  /** The `INSERT INTO table (fields) VALUES (values)` match: the table name as written,
      the comma-separated field items, and the digits of each `@paramN` in VALUES. */
  datatype InsertShape = InsertShape(table: string, fields: seq<string>, values: seq<string>)

  /** What the detector reads from a normalised query: the digits of every `@paramN`
      occurrence in order, the INSERT match if there is one, and the verdicts of the
      UPDATE-assignment and keyword-proximity heuristics for each parameter index,
      which the model leaves abstract. */
  datatype Query = Query(
    params: seq<string>,
    insert: Option<InsertShape>,
    updateRule: nat -> Option<bool>,
    keywordRule: nat -> bool)

  predicate NotBracket(c: char) {
    c != '[' && c != ']'
  }

  /** A field item as the detector compares it: trimmed, brackets removed, lower-cased. */
  function FieldKey(lower: char -> string, item: string): string {
    MapChars(lower, Filtering.Filter(Trim(item), NotBracket))
  }

  /** `findIndex` of a parameter among the VALUES parameters. */
  function FindParam(values: seq<string>, p: string): (r: Option<nat>)
    ensures r.Some? ==> r.value < |values| && values[r.value] == p
    ensures r.Some? ==> forall j :: 0 <= j < r.value ==> values[j] != p
    ensures r.None? ==> p !in values
  {
    if values == [] then None
    else if values[0] == p then Some(0)
    else match FindParam(values[1..], p)
      case None => None
      case Some(k) => Some(k + 1)
  }

  /** Pattern 1: the verdict of the INSERT positional rule, or None when it does not apply. */
  function InsertVerdict(lower: char -> string, ins: InsertShape, current: string): Option<bool> {
    var pos := FindParam(ins.values, current);
    if pos.Some? && pos.value < |ins.fields| then Some(IsMontoField(FieldKey(lower, ins.fields[pos.value])))
    else None
  }

  /** Pattern 4: the parameter positions that are amounts in the known tables. The source
      looks the name up in a plain object, so `constructor` and `__proto__` find inherited
      members and `.includes` throws; here they, like every other name, have no positions. */
  function TablePositions(table: string): (r: Option<set<nat>>)
    ensures r.Some? <==> table in {"programas", "desgloses_items_presupuestarios",
                                   "desgloses_items_gestion_interna", "items_presupuestarios"}
  {
    if table == "programas" then Some({2, 3, 4, 5})
    else if table == "desgloses_items_presupuestarios" || table == "desgloses_items_gestion_interna" then Some({3, 4})
    else if table == "items_presupuestarios" then Some({1, 2})
    else None
  }

  /** `detectMontoFieldFromQuery(query, paramIndex)`: the first pattern that decides wins. */
  function DetectMonto(lower: char -> string, q: Query, paramIndex: nat): bool {
    if paramIndex >= |q.params| then false
    else
      var current := q.params[paramIndex];
      var byInsert := if q.insert.Some? then InsertVerdict(lower, q.insert.value, current) else None;
      if byInsert.Some? then byInsert.value
      else if q.updateRule(paramIndex).Some? then q.updateRule(paramIndex).value
      else if q.keywordRule(paramIndex) then true
      else if q.insert.Some? && TablePositions(MapChars(lower, q.insert.value.table)).Some? then
        paramIndex in TablePositions(MapChars(lower, q.insert.value.table)).value
      else false
  }

  /** An index past the last `@paramN` of the query is never an amount, whatever the
      heuristics would say. */
  lemma DetectOutOfRange(lower: char -> string, q: Query, paramIndex: nat)
    requires paramIndex >= |q.params|
    ensures !DetectMonto(lower, q, paramIndex)
  {
  }

  /** The INSERT rule: when the parameter first appears at position k of VALUES and
      there is a k-th field, the verdict is whether that field, cleaned, is an amount
      field; no later pattern is consulted. */
  lemma InsertRule(lower: char -> string, q: Query, paramIndex: nat, k: nat)
    requires paramIndex < |q.params| && q.insert.Some?
    requires k < |q.insert.value.values| && k < |q.insert.value.fields|
    requires q.insert.value.values[k] == q.params[paramIndex]
    requires forall j :: 0 <= j < k ==> q.insert.value.values[j] != q.params[paramIndex]
    ensures DetectMonto(lower, q, paramIndex) <==> IsMontoField(FieldKey(lower, q.insert.value.fields[k]))
  {
    var ins := q.insert.value;
    FirstOccurrenceFound(ins.values, q.params[paramIndex], k);
    assert InsertVerdict(lower, ins, q.params[paramIndex]) == Some(IsMontoField(FieldKey(lower, ins.fields[k])));
    DecidedByInsert(lower, q, paramIndex);
  }

  /** `findIndex` finds the first occurrence. */
  lemma FirstOccurrenceFound(values: seq<string>, p: string, k: nat)
    requires k < |values| && values[k] == p
    requires forall j :: 0 <= j < k ==> values[j] != p
    ensures FindParam(values, p) == Some(k)
  {
    assert p in values;
  }

  /** Once the INSERT rule gives a verdict, the detector returns it. */
  lemma DecidedByInsert(lower: char -> string, q: Query, paramIndex: nat)
    requires paramIndex < |q.params| && q.insert.Some?
    requires InsertVerdict(lower, q.insert.value, q.params[paramIndex]).Some?
    ensures DetectMonto(lower, q, paramIndex) == InsertVerdict(lower, q.insert.value, q.params[paramIndex]).value
  {
  }

  /** The table fallback: when no earlier pattern decides, an INSERT into a known table
      marks the fixed positions of that table, and an INSERT into any other table marks
      nothing. */
  lemma TableFallback(lower: char -> string, q: Query, paramIndex: nat)
    requires paramIndex < |q.params| && q.insert.Some?
    requires InsertVerdict(lower, q.insert.value, q.params[paramIndex]).None?
    requires q.updateRule(paramIndex).None? && !q.keywordRule(paramIndex)
    ensures var t := MapChars(lower, q.insert.value.table);
      DetectMonto(lower, q, paramIndex) <==>
        (t == "programas" && 2 <= paramIndex <= 5) ||
        ((t == "desgloses_items_presupuestarios" || t == "desgloses_items_gestion_interna") && 3 <= paramIndex <= 4) ||
        (t == "items_presupuestarios" && 1 <= paramIndex <= 2)
  {
  }

  // ---------------------------------------------------------------------------------
  // Parameter binding

  datatype SqlType = IntType | BigIntType | OtherType(name: string)

  /** A JavaScript parameter value: a number, a bigint, a string, or null. */
  datatype JsValue = Num(n: int) | Big(b: int) | Str(s: string) | Null

  /** What `Number(s)` gives for a string: a finite value, an infinity, or NaN. The
      conversion itself is a parameter, `toNumber`. */
  datatype JsNumber = Finite(x: real) | PosInf | NegInf | NaN

  /** JavaScript's `value > MAX_SAFE_INTEGER`: a bigint is compared exactly, a string is
      first converted to a number (NaN compares false), and null counts as 0. */
  predicate AboveMaxSafe(toNumber: string -> JsNumber, v: JsValue) {
    match v
    case Num(n) => n > MaxSafe
    case Big(b) => b > MaxSafe
    case Str(s) => (match toNumber(s)
                    case Finite(x) => x > MaxSafe as real
                    case PosInf => true
                    case _ => false)
    case Null => false
  }

  /** A parameter as callers pass it; its optional `name` is never used. */
  datatype Param = Param(name: Option<string>, typ: SqlType, value: JsValue)

  /** A parameter added to the request. */
  datatype Binding = Binding(name: string, typ: SqlType, value: JsValue)

  /** The i-th parameter is promoted to BigInt. */
  predicate Promoted(lower: char -> string, q: Query, params: seq<Param>, i: nat)
    requires i < |params|
  {
    params[i].typ == IntType && DetectMonto(lower, q, i)
  }

  /** The i-th parameter is promoted and its value is above MAX_SAFE_INTEGER: the promise
      is rejected and this parameter is not added. */
  predicate Overflows(lower: char -> string, toNumber: string -> JsNumber, q: Query, params: seq<Param>, i: nat)
    requires i < |params|
  {
    Promoted(lower, q, params, i) && AboveMaxSafe(toNumber, params[i].value)
  }

  function BindingOf(lower: char -> string, q: Query, params: seq<Param>, i: nat): Binding
    requires i < |params|
  {
    Binding(ParamName(i), if Promoted(lower, q, params, i) then BigIntType else params[i].typ, params[i].value)
  }

  /** The bindings made by the `forEach` over the first `n` parameters. */
  function Bindings(lower: char -> string, toNumber: string -> JsNumber, q: Query, params: seq<Param>, n: nat): seq<Binding>
    requires n <= |params|
  {
    if n == 0 then []
    else
      var last := if Overflows(lower, toNumber, q, params, n - 1) then [] else [BindingOf(lower, q, params, n - 1)];
      Bindings(lower, toNumber, q, params, n - 1) + last
  }

  /** The parameter loop of `executeQuery`. An overflowing parameter rejects the promise
      and is skipped, and the loop goes on with the next one. */
  method BindParameters(lower: char -> string, toNumber: string -> JsNumber, q: Query, params: seq<Param>) returns (bound: seq<Binding>, rejected: bool)
    ensures bound == Bindings(lower, toNumber, q, params, |params|)
    ensures rejected <==> exists i :: 0 <= i < |params| && Overflows(lower, toNumber, q, params, i)
  {
    bound := [];
    rejected := false;
    var i := 0;
    while i < |params|
      invariant i <= |params|
      invariant bound == Bindings(lower, toNumber, q, params, i)
      invariant rejected <==> exists j :: 0 <= j < i && Overflows(lower, toNumber, q, params, j)
    {
      var typ := params[i].typ;
      var skip := false;
      if params[i].typ == IntType && DetectMonto(lower, q, i) {
        typ := BigIntType;
        if AboveMaxSafe(toNumber, params[i].value) {
          rejected := true;
          skip := true;
        }
      }
      if !skip {
        bound := bound + [Binding(ParamName(i), typ, params[i].value)];
      }
      i := i + 1;
    }
  }

  /** Every binding is the parameter at its own position, named by that position; every
      parameter that does not overflow is bound, including those after an overflow. */
  lemma {:induction false} BindingsSpec(lower: char -> string, toNumber: string -> JsNumber, q: Query, params: seq<Param>, n: nat)
    requires n <= |params|
    ensures forall b :: b in Bindings(lower, toNumber, q, params, n) ==>
      exists i :: 0 <= i < n && !Overflows(lower, toNumber, q, params, i) && b == BindingOf(lower, q, params, i)
    ensures forall i :: 0 <= i < n && !Overflows(lower, toNumber, q, params, i) ==>
      BindingOf(lower, q, params, i) in Bindings(lower, toNumber, q, params, n)
  {
    if n > 0 {
      BindingsSpec(lower, toNumber, q, params, n - 1);
    }
  }

  /** Bindings carry no trace of the parameters' own names: two parameter lists that
      differ only in `name` are bound identically. */
  lemma {:induction false} NamesIgnored(lower: char -> string, toNumber: string -> JsNumber, q: Query, params: seq<Param>, renamed: seq<Param>, n: nat)
    requires |renamed| == |params| && n <= |params|
    requires forall i :: 0 <= i < |params| ==> renamed[i].typ == params[i].typ && renamed[i].value == params[i].value
    ensures Bindings(lower, toNumber, q, renamed, n) == Bindings(lower, toNumber, q, params, n)
  {
    if n > 0 {
      NamesIgnored(lower, toNumber, q, params, renamed, n - 1);
    }
  }

  /** Only an Int parameter that the detector marks can change type, and only to BigInt;
      the value is never changed. */
  lemma BindingType(lower: char -> string, q: Query, params: seq<Param>, i: nat)
    requires i < |params|
    ensures BindingOf(lower, q, params, i).value == params[i].value
    ensures BindingOf(lower, q, params, i).typ != params[i].typ <==>
      params[i].typ == IntType && DetectMonto(lower, q, i)
    ensures BindingOf(lower, q, params, i).typ != params[i].typ ==> BindingOf(lower, q, params, i).typ == BigIntType
  {
  }

  /** When nothing overflows, the bound names are exactly `param1` .. `paramN`. */
  lemma {:induction false} BoundNamesWithoutOverflow(lower: char -> string, toNumber: string -> JsNumber, q: Query, params: seq<Param>, n: nat)
    requires n <= |params|
    requires forall i :: 0 <= i < n ==> !Overflows(lower, toNumber, q, params, i)
    ensures (set b | b in Bindings(lower, toNumber, q, params, n) :: b.name) == BoundNames(n)
  {
    if n > 0 {
      BoundNamesWithoutOverflow(lower, toNumber, q, params, n - 1);
      var prev := Bindings(lower, toNumber, q, params, n - 1);
      var b := BindingOf(lower, q, params, n - 1);
      assert Bindings(lower, toNumber, q, params, n) == prev + [b];
      assert (set x | x in prev + [b] :: x.name) == (set x | x in prev :: x.name) + {ParamName(n - 1)};
      assert BoundNames(n) == BoundNames(n - 1) + {ParamName(n - 1)};
    } else {
      assert BoundNames(0) == {};
    }
  }

  /** There is one binding per parameter that does not overflow: never more bindings
      than parameters, and fewer as soon as one parameter overflows. */
  lemma {:induction false} BindingsShort(lower: char -> string, toNumber: string -> JsNumber, q: Query, params: seq<Param>, n: nat)
    requires n <= |params|
    ensures |Bindings(lower, toNumber, q, params, n)| <= n
    ensures (exists i :: 0 <= i < n && Overflows(lower, toNumber, q, params, i)) ==>
      |Bindings(lower, toNumber, q, params, n)| < n
  {
    if n > 0 {
      BindingsShort(lower, toNumber, q, params, n - 1);
    }
  }

  /** A promoted string is compared after conversion: one whose number is above
      MAX_SAFE_INTEGER overflows just as a number or a bigint does, so the promise is
      rejected and its binding is skipped. */
  lemma StringAmountAboveLimit(lower: char -> string, toNumber: string -> JsNumber, q: Query, params: seq<Param>, i: nat)
    requires i < |params| && Promoted(lower, q, params, i) && params[i].value.Str?
    requires toNumber(params[i].value.s) == PosInf ||
      (toNumber(params[i].value.s).Finite? && toNumber(params[i].value.s).x > MaxSafe as real)
    ensures Overflows(lower, toNumber, q, params, i)
    ensures |Bindings(lower, toNumber, q, params, |params|)| < |params|
  {
    assert Overflows(lower, toNumber, q, params, i);
    BindingsShort(lower, toNumber, q, params, |params|);
  }

  // ---------------------------------------------------------------------------------
  // Result rows

  /** A column value as the driver delivers it. */
  datatype DbValue = BigV(b: int) | NumV(n: int) | TextV(s: string) | NullV

  datatype Column = Column(colName: string, value: DbValue)

  /** The value stored for a column: a bigint in an amount column becomes a number when
      it is within the safe range and its decimal string otherwise. */
  function ConvertValue(lower: char -> string, c: Column): (r: DbValue)
    ensures !IsMontoField(MapChars(lower, c.colName)) || !c.value.BigV? ==> r == c.value
    ensures r.NumV? && c.value.BigV? ==> r.n == c.value.b && -MaxSafe <= r.n <= MaxSafe
    ensures r.TextV? && c.value.BigV? ==> r.s == IntToString(c.value.b) && (c.value.b > MaxSafe || c.value.b < -MaxSafe)
  {
    if IsMontoField(MapChars(lower, c.colName)) && c.value.BigV? then
      if -MaxSafe <= c.value.b <= MaxSafe then NumV(c.value.b) else TextV(IntToString(c.value.b))
    else c.value
  }

  /** The row object built from the first `n` columns: each column writes its own name,
      so a repeated name keeps the later value. */
  function RowOf(lower: char -> string, cols: seq<Column>, n: nat): map<string, DbValue>
    requires n <= |cols|
  {
    if n == 0 then map[] else RowOf(lower, cols, n - 1)[cols[n - 1].colName := ConvertValue(lower, cols[n - 1])]
  }

  /** The row has a key for every column name and no other. */
  lemma {:induction false} RowOfKeys(lower: char -> string, cols: seq<Column>, n: nat)
    requires n <= |cols|
    ensures RowOf(lower, cols, n).Keys == set i | 0 <= i < n :: cols[i].colName
  {
    if n > 0 {
      RowOfKeys(lower, cols, n - 1);
      assert (set i | 0 <= i < n :: cols[i].colName) == (set i | 0 <= i < n - 1 :: cols[i].colName) + {cols[n - 1].colName};
    }
  }

  /** Each key holds the converted value of the last column with that name. */
  lemma {:induction false} RowOfLast(lower: char -> string, cols: seq<Column>, n: nat, i: nat)
    requires i < n <= |cols|
    requires forall j :: i < j < n ==> cols[j].colName != cols[i].colName
    ensures cols[i].colName in RowOf(lower, cols, n)
    ensures RowOf(lower, cols, n)[cols[i].colName] == ConvertValue(lower, cols[i])
  {
    if i < n - 1 {
      RowOfLast(lower, cols, n - 1, i);
    }
  }

  /** The `row` handler: one object per row, field by field. */
  method BuildRow(lower: char -> string, cols: seq<Column>) returns (row: map<string, DbValue>)
    ensures row == RowOf(lower, cols, |cols|)
  {
    row := map[];
    var i := 0;
    while i < |cols|
      invariant i <= |cols|
      invariant row == RowOf(lower, cols, i)
    {
      row := row[cols[i].colName := ConvertValue(lower, cols[i])];
      i := i + 1;
    }
  }

  /** How the promise settles. */
  datatype Settled = Rejected | Resolved(rows: seq<map<string, DbValue>>)

  /** `executeQuery`: bind the parameters, run the statement (the server's rows are the
      input `serverRows`), and build the result rows in arrival order. A binding overflow
      rejects the promise, but the statement still runs; a placeholder left unbound makes
      the statement fail. */
  method ExecuteQuery(lower: char -> string, toNumber: string -> JsNumber, q: Query, placeholders: set<string>, params: seq<Param>,
                      serverRows: seq<seq<Column>>)
    returns (bound: seq<Binding>, ran: bool, settled: Settled)
    ensures bound == Bindings(lower, toNumber, q, params, |params|)
    ensures ran <==> placeholders <= (set b | b in bound :: b.name)
    ensures settled.Resolved? <==> ran && forall i :: 0 <= i < |params| ==> !Overflows(lower, toNumber, q, params, i)
    ensures settled.Resolved? ==> |settled.rows| == |serverRows|
    ensures settled.Resolved? ==> forall i :: 0 <= i < |serverRows| ==> settled.rows[i] == RowOf(lower, serverRows[i], |serverRows[i]|)
  {
    var rejected;
    bound, rejected := BindParameters(lower, toNumber, q, params);
    ran := placeholders <= (set b | b in bound :: b.name);
    var rows: seq<map<string, DbValue>> := [];
    if ran {
      var i := 0;
      while i < |serverRows|
        invariant i <= |serverRows| && |rows| == i
        invariant forall k :: 0 <= k < i ==> rows[k] == RowOf(lower, serverRows[k], |serverRows[k]|)
      {
        var row := BuildRow(lower, serverRows[i]);
        rows := rows + [row];
        i := i + 1;
      }
    }
    if rejected || !ran {
      settled := Rejected;
    } else {
      settled := Resolved(rows);
    }
  }

  /** A statement whose parameters are never promoted (strings and identifiers, as in
      every route handler) runs exactly when its placeholders are among `param1` ..
      `paramN`. */
  lemma RunsWithoutPromotion(lower: char -> string, toNumber: string -> JsNumber, q: Query, placeholders: set<string>, params: seq<Param>)
    requires forall i :: 0 <= i < |params| ==> params[i].typ != IntType
    ensures (placeholders <= (set b | b in Bindings(lower, toNumber, q, params, |params|) :: b.name)) <==> Runs(placeholders, |params|)
  {
    BoundNamesWithoutOverflow(lower, toNumber, q, params, |params|);
  }
}
