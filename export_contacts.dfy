/** The layout of the exported contacts sheet: which rows are written and with what
    values, the range of rows each contact's group occupies, the merged cells, the group
    fills and the borders. The workbook library itself is not part of this model: a
    merge, a fill or a border is recorded as a value. */
module ExportContacts {

  /** An additional person at the same number. A missing field is the empty string. */
  datatype Additional = Additional(nombre: string, cargo: string, unidad: string, direccion: string,
                                   sigla: string, ubicacion: string)

  /** A contact as the contacts listing returns it. */
  datatype Contact = Contact(tipo: string, anexo: string, numero: string, nombre: string, cargo: string,
                             unidad: string, direccion: string, sigla: string, ubicacion: string,
                             additional: seq<Additional>)

  /** One data row, its fields in header order. */
  datatype SheetRow = SheetRow(tipo: string, numero: string, usuarios: string, cargo: string, unidad: string,
                               direccion: string, sigla: string, ubicacion: string)

  /** The two group fills: white (`FFFFFFFF`) and very light blue (`FFF0F8FF`). */
  datatype Fill = White | LightBlue

  /** A recorded group range, with the fill the group was given. */
  datatype Range = Range(start: nat, end: nat, fill: Fill)

  datatype Column = A | B

  /** A merge of one column over rows `start` to `end`. */
  datatype Merge = Merge(column: Column, start: nat, end: nat)

  /** The style a data cell ends with: its fill and which of its four borders are drawn. */
  datatype CellStyle = CellStyle(fill: Fill, top: bool, bottom: bool, left: bool, right: bool)

  const Headers: seq<string> := ["Tipo", "Anexo/Número", "Usuario(s)", "Cargo", "Unidad", "Dirección",
                                 "Sigla Dirección", "Ubicación"]

  /** The header row is row 1; data starts at row 2. */
  const FirstDataRow: nat := 2

  /** `a || b` on strings. */
  function Or(a: string, b: string): string {
    if a != "" then a else b
  }

  /** The values written for a row, in header order. */
  function Values(r: SheetRow): (v: seq<string>)
    ensures |v| == |Headers|
    ensures v[0] == r.tipo && v[1] == r.numero && v[2] == r.usuarios && v[3] == r.cargo
    ensures v[4] == r.unidad && v[5] == r.direccion && v[6] == r.sigla && v[7] == r.ubicacion
  {
    [r.tipo, r.numero, r.usuarios, r.cargo, r.unidad, r.direccion, r.sigla, r.ubicacion]
  }

  /** The number column: the anexo, else the number, for a fixed line; the number
      otherwise. */
  function ContactNumber(c: Contact): (r: string)
    ensures c.tipo != "Fijo" ==> r == c.numero
    ensures c.tipo == "Fijo" && c.anexo != "" ==> r == c.anexo
    ensures c.tipo == "Fijo" && c.anexo == "" ==> r == c.numero
  {
    if c.tipo == "Fijo" then Or(c.anexo, c.numero) else c.numero
  }

  function MainRow(c: Contact): SheetRow {
    SheetRow(c.tipo, ContactNumber(c), c.nombre, c.cargo, c.unidad, c.direccion, c.sigla, c.ubicacion)
  }

  /** An additional person's row: type and number come from the contact, and each empty
      field falls back to the contact's. */
  function ExtraRow(c: Contact, ac: Additional): SheetRow {
    SheetRow(c.tipo, ContactNumber(c), ac.nombre, ac.cargo, Or(ac.unidad, c.unidad), Or(ac.direccion, c.direccion),
             Or(ac.sigla, c.sigla), Or(ac.ubicacion, c.ubicacion))
  }

  /** The contact's own row, when it has a name. */
  function MainRows(c: Contact): seq<SheetRow> {
    if c.nombre != "" then [MainRow(c)] else []
  }

  /** A contact's own row, when it has a name, then the rows of the first `j`
      additional people that have a name, in order. Every row names a person and
      carries the contact's type and number. */
  function GroupUpTo(c: Contact, j: nat): (g: seq<SheetRow>)
    requires j <= |c.additional|
    ensures |g| <= 1 + j
    ensures forall i :: 0 <= i < |g| ==> g[i].usuarios != "" && g[i].tipo == c.tipo && g[i].numero == ContactNumber(c)
  {
    if j == 0 then MainRows(c)
    else
      var ac := c.additional[j - 1];
      GroupUpTo(c, j - 1) + (if ac.nombre != "" then [ExtraRow(c, ac)] else [])
  }

  /** A contact's group: its own row and its additional people's rows. */
  function Group(c: Contact): seq<SheetRow> {
    GroupUpTo(c, |c.additional|)
  }

  /** Light for an even position in the listing, light blue for an odd one. */
  function FillFor(groupIndex: nat): Fill {
    if groupIndex % 2 == 0 then White else LightBlue
  }

  /** The group of each contact of the listing, in order. */
  function Groups(cs: seq<Contact>): (gs: seq<seq<SheetRow>>)
    ensures |gs| == |cs|
  {
    if cs == [] then [] else Groups(cs[..|cs| - 1]) + [Group(cs[|cs| - 1])]
  }

  /** The `i`-th group is the `i`-th contact's. */
  lemma {:induction false} GroupsAt(cs: seq<Contact>, i: nat)
    requires i < |cs|
    ensures Groups(cs)[i] == Group(cs[i])
  {
    if i < |cs| - 1 {
      GroupsAt(cs[..|cs| - 1], i);
    }
  }

  /** The rows of the first `n` groups. */
  function RowsUpTo(gs: seq<seq<SheetRow>>, n: nat): seq<SheetRow>
    requires n <= |gs|
  {
    if n == 0 then [] else RowsUpTo(gs, n - 1) + gs[n - 1]
  }

  /** The ranges recorded for the first `n` groups: one per non-empty group, right after
      the rows before it, filled by the group's position in the listing. */
  function RangesUpTo(gs: seq<seq<SheetRow>>, n: nat): seq<Range>
    requires n <= |gs|
  {
    if n == 0 then []
    else
      var before := RowsUpTo(gs, n - 1);
      var g := gs[n - 1];
      RangesUpTo(gs, n - 1) +
      (if |g| > 0 then [Range(FirstDataRow + |before|, FirstDataRow + |before| + |g| - 1, FillFor(n - 1))] else [])
  }

  /** One more group adds its rows after the others and, when it has rows, one range
      right after the last data row so far. */
  lemma NextGroup(gs: seq<seq<SheetRow>>, n: nat)
    requires n < |gs|
    ensures RowsUpTo(gs, n + 1) == RowsUpTo(gs, n) + gs[n]
    ensures RangesUpTo(gs, n + 1) ==
      RangesUpTo(gs, n) + if |gs[n]| > 0 then [Range(FirstDataRow + |RowsUpTo(gs, n)|, FirstDataRow + |RowsUpTo(gs, n)| + |gs[n]| - 1, FillFor(n))] else []
  {
  }

  /** The positions in the listing of the groups that got a range, in order. */
  function Owners(gs: seq<seq<SheetRow>>, n: nat): seq<nat>
    requires n <= |gs|
  {
    if n == 0 then [] else Owners(gs, n - 1) + (if |gs[n - 1]| > 0 then [n - 1] else [])
  }

  /** Columns A and B merged over each range of more than one row. */
  function MergesOf(ranges: seq<Range>): seq<Merge> {
    if ranges == [] then []
    else
      var r := ranges[|ranges| - 1];
      MergesOf(ranges[..|ranges| - 1]) + (if r.end > r.start then [Merge(A, r.start, r.end), Merge(B, r.start, r.end)] else [])
  }

  /** The merges are exactly columns A and B over the ranges longer than one row. */
  lemma {:induction false} MergesExactly(ranges: seq<Range>, m: Merge)
    ensures m in MergesOf(ranges) <==> exists k :: 0 <= k < |ranges| && ranges[k].start < ranges[k].end &&
                                                   m.start == ranges[k].start && m.end == ranges[k].end
  {
    if ranges != [] {
      var init := ranges[..|ranges| - 1];
      MergesExactly(init, m);
      if exists k :: 0 <= k < |init| && init[k].start < init[k].end && m.start == init[k].start && m.end == init[k].end {
        var k :| 0 <= k < |init| && init[k].start < init[k].end && m.start == init[k].start && m.end == init[k].end;
        assert ranges[k] == init[k];
      }
      if exists k :: 0 <= k < |ranges| && ranges[k].start < ranges[k].end && m.start == ranges[k].start && m.end == ranges[k].end {
        var k :| 0 <= k < |ranges| && ranges[k].start < ranges[k].end && m.start == ranges[k].start && m.end == ranges[k].end;
        if k < |init| {
          assert init[k] == ranges[k];
        } else if m.column == A {
          assert m == Merge(A, ranges[k].start, ranges[k].end);
        } else {
          assert m == Merge(B, ranges[k].start, ranges[k].end);
        }
      }
    }
  }

  /** One range per contact with rows. */
  lemma {:induction false} OwnersMatchRanges(gs: seq<seq<SheetRow>>, n: nat)
    requires n <= |gs|
    ensures |RangesUpTo(gs, n)| == |Owners(gs, n)|
  {
    if n > 0 {
      OwnersMatchRanges(gs, n - 1);
    }
  }

  /** The `k`-th range belongs to the `k`-th owner: it spans as many rows as that
      contact's group and has the fill of the contact's position in the listing. */
  lemma {:induction false} RangeOfOwner(gs: seq<seq<SheetRow>>, n: nat, k: nat)
    requires n <= |gs| && k < |Owners(gs, n)|
    ensures |RangesUpTo(gs, n)| == |Owners(gs, n)|
    ensures Owners(gs, n)[k] < n && |gs[Owners(gs, n)[k]]| > 0
    ensures RangesUpTo(gs, n)[k].end + 1 - RangesUpTo(gs, n)[k].start == |gs[Owners(gs, n)[k]]|
    ensures RangesUpTo(gs, n)[k].fill == FillFor(Owners(gs, n)[k])
  {
    OwnersMatchRanges(gs, n);
    OwnersMatchRanges(gs, n - 1);
    var os := Owners(gs, n - 1);
    var rs := RangesUpTo(gs, n - 1);
    if k < |os| {
      RangeOfOwner(gs, n - 1, k);
      assert Owners(gs, n)[k] == os[k];
      assert RangesUpTo(gs, n)[k] == rs[k];
    }
  }

  /** The owners come in listing order. */
  lemma {:induction false} OwnersIncrease(gs: seq<seq<SheetRow>>, n: nat, k: nat, l: nat)
    requires n <= |gs| && k < l < |Owners(gs, n)|
    ensures Owners(gs, n)[k] < Owners(gs, n)[l]
  {
    var os := Owners(gs, n - 1);
    if l < |os| {
      OwnersIncrease(gs, n - 1, k, l);
      assert Owners(gs, n)[k] == os[k] && Owners(gs, n)[l] == os[l];
    } else {
      RangeOfOwner(gs, n - 1, k);
      assert Owners(gs, n)[k] == os[k];
    }
  }

  /** Every contact with rows gets a range. */
  lemma {:induction false} EveryGroupOwned(gs: seq<seq<SheetRow>>, n: nat, i: nat)
    requires i < n <= |gs| && |gs[i]| > 0
    ensures i in Owners(gs, n)
  {
    if i < n - 1 {
      EveryGroupOwned(gs, n - 1, i);
    }
  }

  /** Each range is non-empty and starts on the row after the previous one ends. */
  ghost predicate BackToBack(rs: seq<Range>) {
    (forall j :: 0 <= j < |rs| ==> rs[j].start <= rs[j].end) &&
    forall j, l :: 0 <= j < l < |rs| && l == j + 1 ==> rs[l].start == rs[j].end + 1
  }

  /** The ranges lie within the data rows and end at the last of them: each is
      non-empty and starts at row 2 or later, there are none exactly when there are no
      rows, and the last ends at the last data row. */
  lemma {:induction false} RangesWithinRows(gs: seq<seq<SheetRow>>, n: nat)
    requires n <= |gs|
    ensures forall k :: 0 <= k < |RangesUpTo(gs, n)| ==> FirstDataRow <= RangesUpTo(gs, n)[k].start <= RangesUpTo(gs, n)[k].end
    ensures RangesUpTo(gs, n) == [] <==> RowsUpTo(gs, n) == []
    ensures RangesUpTo(gs, n) != [] ==> RangesUpTo(gs, n)[|RangesUpTo(gs, n)| - 1].end == FirstDataRow + |RowsUpTo(gs, n)| - 1
  {
    if n > 0 {
      RangesWithinRows(gs, n - 1);
      NextGroup(gs, n - 1);
      var rs := RangesUpTo(gs, n - 1);
      var before := RowsUpTo(gs, n - 1);
      if |gs[n - 1]| > 0 {
        var r := Range(FirstDataRow + |before|, FirstDataRow + |before| + |gs[n - 1]| - 1, FillFor(n - 1));
        var rs' := RangesUpTo(gs, n);
        assert rs' == rs + [r];
        forall k | 0 <= k < |rs'|
          ensures FirstDataRow <= rs'[k].start <= rs'[k].end
        {
          if k < |rs| {
            assert rs'[k] == rs[k];
          }
        }
      } else {
        assert RangesUpTo(gs, n) == rs && RowsUpTo(gs, n) == before;
      }
    }
  }

  /** The ranges tile the data rows: the first starts at row 2 and each starts right
      after the previous one ends. */
  lemma {:induction false} RangesTile(gs: seq<seq<SheetRow>>, n: nat)
    requires n <= |gs|
    ensures BackToBack(RangesUpTo(gs, n))
    ensures RangesUpTo(gs, n) != [] ==> RangesUpTo(gs, n)[0].start == FirstDataRow
  {
    if n > 0 {
      var rs := RangesUpTo(gs, n - 1);
      RangesTile(gs, n - 1);
      if |gs[n - 1]| > 0 {
        RangesWithinRows(gs, n - 1);
        var before := RowsUpTo(gs, n - 1);
        var r := Range(FirstDataRow + |before|, FirstDataRow + |before| + |gs[n - 1]| - 1, FillFor(n - 1));
        assert RangesUpTo(gs, n) == rs + [r];
        BackToBackSnoc(rs, r);
        if rs != [] {
          assert (rs + [r])[0] == rs[0];
        }
      } else {
        assert RangesUpTo(gs, n) == rs;
      }
    }
  }

  /** A non-empty range right after the last one keeps the ranges back to back. */
  lemma BackToBackSnoc(rs: seq<Range>, r: Range)
    requires BackToBack(rs) && r.start <= r.end
    requires rs != [] ==> r.start == rs[|rs| - 1].end + 1
    ensures BackToBack(rs + [r])
  {
    var ts := rs + [r];
    forall j, l | 0 <= j < l < |ts| && l == j + 1
      ensures ts[l].start == ts[j].end + 1
    {
      if l < |rs| {
        assert ts[l] == rs[l] && ts[j] == rs[j];
      }
    }
  }

  /** The rows a range covers are its owner's group. */
  lemma {:induction false} RangeHoldsGroup(gs: seq<seq<SheetRow>>, n: nat, k: nat)
    requires n <= |gs|
    requires k < |RangesUpTo(gs, n)|
    ensures |Owners(gs, n)| == |RangesUpTo(gs, n)| && Owners(gs, n)[k] < |gs|
    ensures FirstDataRow <= RangesUpTo(gs, n)[k].start <= RangesUpTo(gs, n)[k].end + 1 <= FirstDataRow + |RowsUpTo(gs, n)|
    ensures RowsUpTo(gs, n)[RangesUpTo(gs, n)[k].start - FirstDataRow .. RangesUpTo(gs, n)[k].end + 1 - FirstDataRow] ==
            gs[Owners(gs, n)[k]]
  {
    OwnersMatchRanges(gs, n);
    RangeOfOwner(gs, n, k);
    OwnersMatchRanges(gs, n - 1);
    var rs := RangesUpTo(gs, n - 1);
    var before := RowsUpTo(gs, n - 1);
    if k < |rs| {
      RangeHoldsGroup(gs, n - 1, k);
      if |gs[n - 1]| > 0 {
        assert RangesUpTo(gs, n)[k] == rs[k];
        assert Owners(gs, n)[k] == Owners(gs, n - 1)[k];
      } else {
        assert RangesUpTo(gs, n) == rs;
      }
      var r := rs[k];
      assert RowsUpTo(gs, n)[r.start - FirstDataRow .. r.end + 1 - FirstDataRow] == before[r.start - FirstDataRow .. r.end + 1 - FirstDataRow];
    } else {
      assert Owners(gs, n)[k] == n - 1;
      assert RowsUpTo(gs, n)[|before|..] == gs[n - 1];
    }
  }

  /** Positions in the listing decide the fill, not positions among the written groups:
      when the contact between two contacts with rows has none, the two adjacent groups
      get the same fill. */
  lemma SkippedContactRepeatsFill(g0: seq<SheetRow>, g1: seq<SheetRow>, g2: seq<SheetRow>)
    requires |g0| > 0 && g1 == [] && |g2| > 0
    ensures |RangesUpTo([g0, g1, g2], 3)| == 2
    ensures RangesUpTo([g0, g1, g2], 3)[0].fill == RangesUpTo([g0, g1, g2], 3)[1].fill == White
    ensures RangesUpTo([g0, g1, g2], 3)[1].start == RangesUpTo([g0, g1, g2], 3)[0].end + 1
  {
    var gs := [g0, g1, g2];
    assert RangesUpTo(gs, 1) == [Range(FirstDataRow, FirstDataRow + |g0| - 1, White)];
    assert RowsUpTo(gs, 1) == g0;
    assert RangesUpTo(gs, 2) == RangesUpTo(gs, 1);
    assert RowsUpTo(gs, 2) == g0;
  }

  /** Collects a contact's group: its own row when it has a name, then each additional
      person with a name. */
  method BuildGroup(c: Contact) returns (group: seq<SheetRow>)
    ensures group == Group(c)
  {
    group := MainRows(c);
    for j := 0 to |c.additional|
      invariant group == GroupUpTo(c, j)
    {
      var ac := c.additional[j];
      if ac.nombre != "" {
        group := group + [ExtraRow(c, ac)];
      }
    }
  }

  /** Writes a group's rows one by one, advancing the row counter past each. */
  method WriteRows(rows: seq<SheetRow>, currentRow: nat, group: seq<SheetRow>) returns (written: seq<SheetRow>, nextRow: nat)
    requires currentRow == FirstDataRow + |rows|
    ensures written == rows + group
    ensures nextRow == FirstDataRow + |written|
  {
    written, nextRow := rows, currentRow;
    for k := 0 to |group|
      invariant written == rows + group[..k]
      invariant nextRow == FirstDataRow + |written|
    {
      written := written + [group[k]];
      nextRow := nextRow + 1;
      assert group[..k + 1] == group[..k] + [group[k]];
    }
    assert group[..|group|] == group;
  }

  /** The planning pass of the export: walks the contacts with a row counter, writes each
      group's rows, records its range with its fill, and merges columns A and B over each
      group of more than one row. */
  method PlanSheet(contacts: seq<Contact>) returns (rows: seq<SheetRow>, ranges: seq<Range>, merges: seq<Merge>)
    ensures rows == RowsUpTo(Groups(contacts), |contacts|)
    ensures ranges == RangesUpTo(Groups(contacts), |contacts|)
    ensures merges == MergesOf(ranges)
  {
    ghost var gs := Groups(contacts);
    var currentRow := FirstDataRow;
    rows, ranges, merges := [], [], [];
    for groupIndex := 0 to |contacts|
      invariant rows == RowsUpTo(gs, groupIndex)
      invariant currentRow == FirstDataRow + |rows|
      invariant ranges == RangesUpTo(gs, groupIndex)
      invariant merges == MergesOf(ranges)
    {
      var group := BuildGroup(contacts[groupIndex]);
      GroupsAt(contacts, groupIndex);
      NextGroup(gs, groupIndex);
      if |group| > 0 {
        var groupStartRow := currentRow;
        rows, currentRow := WriteRows(rows, currentRow, group);
        var groupEndRow := currentRow - 1;
        var range := Range(groupStartRow, groupEndRow, FillFor(groupIndex));
        if |group| > 1 {
          merges := merges + [Merge(A, groupStartRow, groupEndRow), Merge(B, groupStartRow, groupEndRow)];
        }
        ranges := ranges + [range];
      }
    }
  }

  /** The style a row of a range ends with: the range's fill, left and right borders
      always, a top border on its first row and a bottom border on its last. */
  function BorderStyle(r: Range, rowNum: nat): CellStyle {
    CellStyle(r.fill, rowNum == r.start, rowNum == r.end, true, true)
  }

  /** The styles one range gives its rows. */
  function RangeStyles(r: Range): map<nat, CellStyle> {
    map rowNum: nat | r.start <= rowNum <= r.end :: BorderStyle(r, rowNum)
  }

  /** The row styles after the border pass over the first `n` ranges; a later range
      overrides an earlier one on a shared row. */
  function BorderedUpTo(ranges: seq<Range>, n: nat): map<nat, CellStyle>
    requires n <= |ranges|
  {
    if n == 0 then map[] else BorderedUpTo(ranges, n - 1) + RangeStyles(ranges[n - 1])
  }

  /** The styles of the rows of `r` below `rowNum`. */
  ghost function StylesBelow(r: Range, rowNum: nat): map<nat, CellStyle> {
    map i: nat | r.start <= i < rowNum :: BorderStyle(r, i)
  }

  lemma StylesBelowStep(r: Range, rowNum: nat)
    requires r.start <= rowNum
    ensures StylesBelow(r, rowNum + 1) == StylesBelow(r, rowNum)[rowNum := BorderStyle(r, rowNum)]
  {
  }

  lemma StylesBelowEnd(r: Range, rowNum: nat)
    requires r.start <= rowNum && r.end < rowNum
    requires rowNum <= r.end + 1 || rowNum == r.start
    ensures StylesBelow(r, rowNum) == RangeStyles(r)
  {
  }

  lemma UpdateAfterMerge(a: map<nat, CellStyle>, b: map<nat, CellStyle>, k: nat, v: CellStyle)
    ensures (a + b)[k := v] == a + b[k := v]
  {
  }

  /** Styles the rows of one range, from its first row to its last. */
  method PaintRange(styles: map<nat, CellStyle>, range: Range) returns (painted: map<nat, CellStyle>)
    ensures painted == styles + RangeStyles(range)
  {
    painted := styles;
    var rowNum := range.start;
    while rowNum <= range.end
      invariant range.start <= rowNum
      invariant rowNum <= range.end + 1 || rowNum == range.start
      invariant painted == styles + StylesBelow(range, rowNum)
      decreases range.end + 1 - rowNum
    {
      StylesBelowStep(range, rowNum);
      UpdateAfterMerge(styles, StylesBelow(range, rowNum), rowNum, BorderStyle(range, rowNum));
      painted := painted[rowNum := BorderStyle(range, rowNum)];
      rowNum := rowNum + 1;
    }
    StylesBelowEnd(range, rowNum);
  }

  /** The border pass: every cell of every row of each range gets the range's fill and its
      borders. The style is the same for all cells of a row, so it is kept per row. */
  method ApplyBorders(ranges: seq<Range>) returns (styles: map<nat, CellStyle>)
    ensures styles == BorderedUpTo(ranges, |ranges|)
  {
    styles := map[];
    for k := 0 to |ranges|
      invariant styles == BorderedUpTo(ranges, k)
    {
      styles := PaintRange(styles, ranges[k]);
    }
  }

  /** On the plan's ranges the border pass styles exactly the data rows, and each row gets
      the style of the one range holding it. */
  lemma {:induction false} BordersOfPlan(gs: seq<seq<SheetRow>>, n: nat, k: nat, rowNum: nat)
    requires n <= |gs|
    requires k < |RangesUpTo(gs, n)|
    requires RangesUpTo(gs, n)[k].start <= rowNum <= RangesUpTo(gs, n)[k].end
    ensures rowNum in BorderedUpTo(RangesUpTo(gs, n), |RangesUpTo(gs, n)|)
    ensures BorderedUpTo(RangesUpTo(gs, n), |RangesUpTo(gs, n)|)[rowNum] == BorderStyle(RangesUpTo(gs, n)[k], rowNum)
  {
    var rs := RangesUpTo(gs, n);
    RangesTile(gs, n);
    LaterRangesMissRow(rs, k, rowNum);
  }

  /** Ranges that follow each other leave a row of range `k` to range `k`. */
  lemma {:induction false} LaterRangesMissRow(rs: seq<Range>, k: nat, rowNum: nat)
    requires k < |rs|
    requires BackToBack(rs)
    requires rs[k].start <= rowNum <= rs[k].end
    ensures rowNum in BorderedUpTo(rs, |rs|) && BorderedUpTo(rs, |rs|)[rowNum] == BorderStyle(rs[k], rowNum)
  {
    var n := |rs|;
    if n - 1 > k {
      var init := rs[..n - 1];
      LaterRangesMissRow(init, k, rowNum);
      BorderedPrefix(rs, n - 1);
      StartsIncrease(rs, k, n - 1);
    } else {
      assert rowNum in RangeStyles(rs[k]);
    }
  }

  /** The border pass over a prefix depends only on that prefix. */
  lemma {:induction false} BorderedPrefix(rs: seq<Range>, m: nat)
    requires m <= |rs|
    ensures BorderedUpTo(rs[..m], m) == BorderedUpTo(rs, m)
    decreases m
  {
    if m > 0 {
      BorderedPrefix(rs, m - 1);
      assert rs[..m][..m - 1] == rs[..m - 1];
      BorderedPrefix(rs[..m], m - 1);
      assert rs[..m][m - 1] == rs[m - 1];
    }
  }

  /** In back-to-back ranges a later range starts after an earlier one ends. */
  lemma {:induction false} StartsIncrease(rs: seq<Range>, k: nat, l: nat)
    requires k < l < |rs|
    requires BackToBack(rs)
    ensures rs[k].end < rs[l].start
  {
    if l > k + 1 {
      StartsIncrease(rs, k, l - 1);
    }
  }
}
