/** The roster normaliser, `procesar_excel_inicial` (app.py:178-220): it turns
    the decoded spreadsheet into the table every later stage reads. */
module Roster {
  import opened Wrappers
  import opened Text

  /** One spreadsheet cell as the decoder hands it over: empty (pandas' NaN),
      text, or a number together with the text Python's `str()` gives for it. */
  datatype Cell = Blank | Str(text: string) | Num(value: real, shown: string)

  /** A column label after lower-casing; `None` for a header cell without text,
      which pandas turns into NaN. */
  type Name = Option<string>

  /** The decoded sheet: the rows below the reader's own header row, each
      `width` cells wide. */
  datatype Sheet = Sheet(width: nat, rows: seq<seq<Cell>>)

  /** A table with labelled columns; the row number is the position in `rows`
      (the normaliser resets the index). */
  datatype Table = Table(header: seq<Name>, rows: seq<seq<Cell>>)

  /** Why normalisation gave up; the program reports each as
      "Error al procesar el archivo: ..." and keeps no table. */
  datatype NormError =
    | NoHeaderRow                 // `iloc[0]` on an empty frame
    | MissingColumn(column: string)  // KeyError / ValueError on a label
    | NotText(column: string)        // `.str` on a column holding only numbers

  const HeaderRow: nat := 10
  const KeptColumns: seq<nat> := [0, 1, 2, 3, 4, 5, 6, 7, 8, 14, 15, 16, 17, 18, 19]
  const ScoreColumn := "nota final"
  const NroColumn := "nro"
  const DisplayColumn := "nombre_certificado"
  const ZeroScore := Num(0.0, "0")

  predicate SheetShaped(s: Sheet) {
    forall i :: 0 <= i < |s.rows| ==> |s.rows[i]| == s.width
  }

  predicate Shaped(t: Table) {
    forall i :: 0 <= i < |t.rows| ==> |t.rows[i]| == |t.header|
  }

  function Range(n: nat): (r: seq<nat>)
    ensures |r| == n && forall i :: 0 <= i < n ==> r[i] == i
  {
    seq(n, i => i)
  }

  /** The elements of `row` at the positions `cols`, in that order. */
  function Pick<T>(row: seq<T>, cols: seq<nat>): (r: seq<T>)
    requires forall j :: 0 <= j < |cols| ==> cols[j] < |row|
    ensures |r| == |cols| && forall j :: 0 <= j < |cols| ==> r[j] == row[cols[j]]
  {
    seq(|cols|, j requires 0 <= j < |cols| => row[cols[j]])
  }

  function RemoveAt<T>(s: seq<T>, k: nat): (r: seq<T>)
    requires k < |s|
    ensures |r| == |s| - 1
    ensures forall j :: 0 <= j < |r| ==> r[j] == if j < k then s[j] else s[j + 1]
  {
    s[..k] + s[k + 1..]
  }

  // ------------------------------------------------------------ lookups

  /** `list.index(name)` on the labels: the first column carrying `name`. */
  function ColumnIndex(header: seq<Name>, name: string): (k: Option<nat>)
    ensures k.None? <==> Some(name) !in header
    ensures k.Some? ==> k.value < |header| && header[k.value] == Some(name)
    ensures k.Some? ==> forall j :: 0 <= j < k.value ==> header[j] != Some(name)
  {
    if header == [] then None
    else if header[0] == Some(name) then Some(0)
    else
      match ColumnIndex(header[1..], name)
      case None => None
      case Some(k) => Some(k + 1)
  }

  /** The table without its column at position `k`. */
  function RemoveColumnAt(t: Table, k: nat): (r: Table)
    requires Shaped(t) && k < |t.header|
    ensures Shaped(r) && |r.rows| == |t.rows|
  {
    Table(RemoveAt(t.header, k), seq(|t.rows|, i requires 0 <= i < |t.rows| => RemoveAt(t.rows[i], k)))
  }

  /** The table without the first column labelled `name` (unchanged when
      there is none). */
  function DropColumn(t: Table, name: string): (r: Table)
    requires Shaped(t)
    ensures Shaped(r) && |r.rows| == |t.rows|
  {
    match ColumnIndex(t.header, name)
    case None => t
    case Some(k) => RemoveColumnAt(t, k)
  }

  /** `df[cols]` by position: the columns at `cols`, in that order. */
  function Select(t: Table, cols: seq<nat>): (r: Table)
    requires Shaped(t)
    requires forall j :: 0 <= j < |cols| ==> cols[j] < |t.header|
    ensures Shaped(r) && |r.rows| == |t.rows|
    ensures r.header == Pick(t.header, cols)
    ensures forall i :: 0 <= i < |t.rows| ==> r.rows[i] == Pick(t.rows[i], cols)
  {
    Table(Pick(t.header, cols), seq(|t.rows|, i requires 0 <= i < |t.rows| => Pick(t.rows[i], cols)))
  }

  // ------------------------------------------------- header and columns

  /** The positions kept by `iloc[:, list(range(9)) + list(range(14, 20))]`,
      which runs only for a sheet wider than 19 columns. */
  function SourceColumns(width: nat): (cols: seq<nat>)
    ensures forall j :: 0 <= j < |cols| ==> cols[j] < width
    ensures width > 19 ==> cols == KeptColumns
    ensures width <= 19 ==> cols == Range(width)
  {
    if width > 19 then KeptColumns else Range(width)
  }

  /** `Index.str.lower()` on one header cell. */
  function LabelOf(c: Cell): Name {
    if c.Str? then Some(Lower(c.text)) else None
  }

  /** app.py:186-200: the first ten rows are dropped, the next one becomes
      the header, a sheet wider than 19 columns keeps only columns A-I and
      O-T, and the labels are lower-cased. */
  function Promote(sheet: Sheet): (t: Table)
    requires SheetShaped(sheet) && |sheet.rows| > HeaderRow
    ensures Shaped(t)
    ensures |t.rows| == |sheet.rows| - HeaderRow - 1
    ensures var cols := SourceColumns(sheet.width);
      && |t.header| == |cols|
      && (forall j :: 0 <= j < |cols| ==> t.header[j] == LabelOf(sheet.rows[HeaderRow][cols[j]]))
      && (forall i, j :: 0 <= i < |t.rows| && 0 <= j < |cols| ==>
            t.rows[i][j] == sheet.rows[HeaderRow + 1 + i][cols[j]])
  {
    var cols := SourceColumns(sheet.width);
    var labels := seq(|cols|, j requires 0 <= j < |cols| => LabelOf(sheet.rows[HeaderRow][cols[j]]));
    var n := |sheet.rows| - HeaderRow - 1;
    var rows := seq(n, i requires 0 <= i < n => Pick(sheet.rows[HeaderRow + 1 + i], cols));
    assert forall i :: 0 <= i < n ==> rows[i] == Pick(sheet.rows[HeaderRow + 1 + i], cols);
    Table(labels, rows)
  }

  // -------------------------------------------------------------- scores

  /** The "not presented" sentinel: a text cell reading `NP` once stripped
      and upper-cased. */
  predicate IsNotPresented(c: Cell) {
    c.Str? && Upper(Strip(c.text)) == "NP"
  }

  /** The sentinel is exactly a stripped text of the two letters n and p, in
      any case. */
  lemma {:induction false} NotPresentedSpelling(s: string)
    ensures IsNotPresented(Str(s)) <==>
      var r := Strip(s);
      |r| == 2 && (r[0] == 'n' || r[0] == 'N') && (r[1] == 'p' || r[1] == 'P')
  {
    var r := Strip(s);
    var u := Upper(r);
    if '\U{DF}' in r {
      SharpUpper(r);
      assert 'S' !in "NP";
    } else if |r| == 2 {
      assert u == [UpperChar(r[0]), UpperChar(r[1])];
      UpperToN(r[0]);
      UpperToP(r[1]);
    } else {
      assert |u| != 2;
    }
  }

  lemma UpperToN(c: char)
    ensures UpperChar(c) == 'N' <==> c == 'n' || c == 'N'
  {
  }

  lemma UpperToP(c: char)
    ensures UpperChar(c) == 'P' <==> c == 'p' || c == 'P'
  {
  }

  /** app.py:203-206: in the `nota final` column, if there is one, the
      sentinel becomes the number 0; every other cell is kept. */
  function FixScores(t: Table): (r: Table)
    requires Shaped(t)
    ensures Shaped(r) && r.header == t.header && |r.rows| == |t.rows|
    ensures forall i, j :: 0 <= i < |t.rows| && 0 <= j < |t.header| ==>
      r.rows[i][j] ==
        if ColumnIndex(t.header, ScoreColumn) == Some(j) && IsNotPresented(t.rows[i][j])
        then ZeroScore else t.rows[i][j]
  {
    match ColumnIndex(t.header, ScoreColumn)
    case None => t
    case Some(k) =>
      Table(t.header, seq(|t.rows|, i requires 0 <= i < |t.rows| =>
        t.rows[i][k := if IsNotPresented(t.rows[i][k]) then ZeroScore else t.rows[i][k]]))
  }

  // -------------------------------------------------------- display name

  /** `.fillna('').str` refuses a column that, once its blanks are filled,
      holds numbers only. */
  predicate NumbersOnly(t: Table, k: nat)
    requires Shaped(t) && k < |t.header|
  {
    |t.rows| > 0 && forall i :: 0 <= i < |t.rows| ==> t.rows[i][k].Num?
  }

  /** A name column the display name can be built from: present, and not
      numbers only. */
  predicate Usable(t: Table, name: string)
    requires Shaped(t)
  {
    ColumnIndex(t.header, name).Some? && !NumbersOnly(t, ColumnIndex(t.header, name).value)
  }

  /** Why a name column cannot be used. */
  function Refusal(t: Table, name: string): NormError
    requires Shaped(t)
  {
    if ColumnIndex(t.header, name).None? then MissingColumn(name) else NotText(name)
  }

  /** The three name columns, looked up in the order app.py:208-209 reads
      them; each must exist and must not hold numbers only, and the first
      one that fails is the one reported. */
  function NameColumns(t: Table): (r: Result<(nat, nat, nat), NormError>)
    requires Shaped(t)
    ensures r.Success? ==>
      && ColumnIndex(t.header, "nombre") == Some(r.value.0)
      && ColumnIndex(t.header, "paterno") == Some(r.value.1)
      && ColumnIndex(t.header, "materno") == Some(r.value.2)
      && !NumbersOnly(t, r.value.0) && !NumbersOnly(t, r.value.1) && !NumbersOnly(t, r.value.2)
    ensures r.Success? <==> Usable(t, "nombre") && Usable(t, "paterno") && Usable(t, "materno")
    ensures !Usable(t, "nombre") ==> r == Failure(Refusal(t, "nombre"))
    ensures Usable(t, "nombre") && !Usable(t, "paterno") ==> r == Failure(Refusal(t, "paterno"))
    ensures Usable(t, "nombre") && Usable(t, "paterno") && !Usable(t, "materno") ==>
      r == Failure(Refusal(t, "materno"))
    ensures r.Failure? ==>
      (exists c :: c in ["nombre", "paterno", "materno"] && r.error in {MissingColumn(c), NotText(c)})
  {
    match ColumnIndex(t.header, "nombre")
    case None => Failure(MissingColumn("nombre"))
    case Some(n) =>
      if NumbersOnly(t, n) then Failure(NotText("nombre")) else
      match ColumnIndex(t.header, "paterno")
      case None => Failure(MissingColumn("paterno"))
      case Some(p) =>
        if NumbersOnly(t, p) then Failure(NotText("paterno")) else
        match ColumnIndex(t.header, "materno")
        case None => Failure(MissingColumn("materno"))
        case Some(m) =>
          if NumbersOnly(t, m) then Failure(NotText("materno")) else
          Success((n, p, m))
  }

  /** One name part after `fillna('')` and `.str.strip()`; `None` is the NaN
      that `.str` gives for a number. */
  function NamePart(c: Cell): Option<string> {
    match c
    case Blank => Some("")
    case Str(s) => Some(Strip(s))
    case Num(_, _) => None
  }

  /** The words a name cell contributes. */
  function CellWords(c: Cell): seq<string> {
    if c.Str? then Words(c.text) else []
  }

  /** app.py:208-209: the stripped parts joined by single spaces, NaN when a
      part is a number. Nothing strips the whole, so an empty `materno`
      leaves a trailing space. */
  function DisplayName(nombre: Cell, paterno: Cell, materno: Cell): (c: Cell)
    ensures c.Blank? <==> nombre.Num? || paterno.Num? || materno.Num?
    ensures c.Str? ==> c.text == NamePart(nombre).value + " " + NamePart(paterno).value + " " + NamePart(materno).value
  {
    match (NamePart(nombre), NamePart(paterno), NamePart(materno))
    case (Some(a), Some(b), Some(m)) => Str(a + " " + b + " " + m)
    case _ => Blank
  }

  lemma {:induction false} PartWords(c: Cell)
    requires !c.Num?
    ensures Words(NamePart(c).value) == CellWords(c)
  {
    if c.Str? {
      WordsOfStrip(c.text);
    } else {
      assert NamePart(c).value == [];
    }
  }

  /** The display name carries exactly the words of the three name parts, in
      order. */
  lemma {:induction false} DisplayNameWords(nombre: Cell, paterno: Cell, materno: Cell)
    requires !nombre.Num? && !paterno.Num? && !materno.Num?
    ensures var c := DisplayName(nombre, paterno, materno);
      c.Str? && Words(c.text) == CellWords(nombre) + CellWords(paterno) + CellWords(materno)
  {
    var a, b, m := NamePart(nombre).value, NamePart(paterno).value, NamePart(materno).value;
    assert DisplayName(nombre, paterno, materno) == Str(a + " " + b + " " + m);
    PartWords(nombre);
    PartWords(paterno);
    PartWords(materno);
    WordsOfSpaced(a, b);
    WordsOfSpaced(a + " " + b, m);
  }

  /** The display-name column: one value per row. */
  function DisplayNames(t: Table, n: nat, p: nat, m: nat): (names: seq<Cell>)
    requires Shaped(t) && n < |t.header| && p < |t.header| && m < |t.header|
    ensures |names| == |t.rows|
    ensures forall i :: 0 <= i < |t.rows| ==> names[i] == DisplayName(t.rows[i][n], t.rows[i][p], t.rows[i][m])
  {
    seq(|t.rows|, i requires 0 <= i < |t.rows| => DisplayName(t.rows[i][n], t.rows[i][p], t.rows[i][m]))
  }

  /** The table with column `k` replaced by `values`. */
  function ReplaceColumn(t: Table, k: nat, values: seq<Cell>): (r: Table)
    requires Shaped(t) && k < |t.header| && |values| == |t.rows|
    ensures Shaped(r) && r.header == t.header && |r.rows| == |t.rows|
    ensures forall i :: 0 <= i < |r.rows| ==> r.rows[i][k] == values[i]
    ensures RemoveColumnAt(r, k) == RemoveColumnAt(t, k)
  {
    var rows := seq(|t.rows|, i requires 0 <= i < |t.rows| => t.rows[i][k := values[i]]);
    var r := Table(t.header, rows);
    assert forall i :: 0 <= i < |t.rows| ==> rows[i] == t.rows[i][k := values[i]];
    assert forall i :: 0 <= i < |t.rows| ==> RemoveAt(rows[i], k) == RemoveAt(t.rows[i], k);
    r
  }

  /** The table with a new last column `name` holding `values`. */
  function AppendColumn(t: Table, name: string, values: seq<Cell>): (r: Table)
    requires Shaped(t) && |values| == |t.rows|
    ensures Shaped(r) && r.header == t.header + [Some(name)] && |r.rows| == |t.rows|
    ensures forall i :: 0 <= i < |r.rows| ==> r.rows[i][|t.header|] == values[i]
    ensures RemoveColumnAt(r, |t.header|) == t
  {
    var rows := seq(|t.rows|, i requires 0 <= i < |t.rows| => t.rows[i] + [values[i]]);
    var r := Table(t.header + [Some(name)], rows);
    assert forall i :: 0 <= i < |t.rows| ==> rows[i] == t.rows[i] + [values[i]];
    assert forall i :: 0 <= i < |t.rows| ==> RemoveAt(rows[i], |t.header|) == t.rows[i];
    assert RemoveAt(r.header, |t.header|) == t.header;
    r
  }

  lemma {:induction false} ColumnIndexAppend(header: seq<Name>, name: string)
    requires Some(name) !in header
    ensures ColumnIndex(header + [Some(name)], name) == Some(|header|)
  {
    var h := header + [Some(name)];
    assert h[|header|] == Some(name);
    assert forall j :: 0 <= j < |header| ==> h[j] != Some(name);
  }

  /** `df[name] = values`: replaces the first column labelled `name`, or
      appends a new last column when there is none. Either way the other
      columns are untouched. */
  function SetColumn(t: Table, name: string, values: seq<Cell>): (r: Table)
    requires Shaped(t) && |values| == |t.rows|
    ensures Shaped(r) && |r.rows| == |t.rows|
    ensures ColumnIndex(r.header, name) ==
      Some(if Some(name) in t.header then ColumnIndex(t.header, name).value else |t.header|)
    ensures var k := ColumnIndex(r.header, name).value;
      forall i :: 0 <= i < |r.rows| ==> r.rows[i][k] == values[i]
    ensures DropColumn(r, name) == DropColumn(t, name)
  {
    match ColumnIndex(t.header, name)
    case Some(k) => ReplaceColumn(t, k, values)
    case None =>
      ColumnIndexAppend(t.header, name);
      AppendColumn(t, name, values)
  }

  // ---------------------------------------------------------- the result

  /** What app.py:208-215 promise of the table `out` built from `p`: the
      display name sits right after `nro`, holds the display name of every
      row, and removing it gives back `p` without its display-name column. */
  ghost predicate NormalizedFrom(p: Table, n: nat, pa: nat, m: nat, out: Table)
    requires Shaped(p) && n < |p.header| && pa < |p.header| && m < |p.header|
  {
    && Shaped(out) && |out.rows| == |p.rows|
    && ColumnIndex(out.header, NroColumn).Some?
    && var k := ColumnIndex(out.header, NroColumn).value;
      && k + 1 < |out.header|
      && out.header[k + 1] == Some(DisplayColumn)
      && RemoveColumnAt(out, k + 1) == DropColumn(p, DisplayColumn)
      && forall i :: 0 <= i < |out.rows| ==>
           out.rows[i][k + 1] == DisplayName(p.rows[i][n], p.rows[i][pa], p.rows[i][m])
  }

  /** Picking every position but `q` is removing position `q`. */
  lemma PickAllBut<T>(s: seq<T>, q: nat)
    requires q < |s|
    ensures forall j :: 0 <= j < |RemoveAt(Range(|s|), q)| ==> RemoveAt(Range(|s|), q)[j] < |s|
    ensures Pick(s, RemoveAt(Range(|s|), q)) == RemoveAt(s, q)
  {
  }

  /** Picking with one position inserted into the list inserts that element. */
  lemma PickInserted<T>(s: seq<T>, rest: seq<nat>, k: nat, q: nat)
    requires forall j :: 0 <= j < |rest| ==> rest[j] < |s|
    requires q < |s| && k < |rest|
    ensures var order := rest[..k + 1] + [q] + rest[k + 1..];
      && (forall j :: 0 <= j < |order| ==> order[j] < |s|)
      && Pick(s, order) == Pick(s, rest)[..k + 1] + [s[q]] + Pick(s, rest)[k + 1..]
  {
    var order := rest[..k + 1] + [q] + rest[k + 1..];
    assert forall j :: 0 <= j < |order| ==> order[j] == if j <= k then rest[j] else if j == k + 1 then q else rest[j - 1];
  }

  lemma RemoveInserted<T>(p: seq<T>, k: nat, x: T)
    requires k < |p|
    ensures RemoveAt(p[..k + 1] + [x] + p[k + 1..], k + 1) == p
  {
    var s := p[..k + 1] + [x] + p[k + 1..];
    assert s[..k + 1] == p[..k + 1];
    assert s[k + 2..] == p[k + 1..];
  }

  lemma {:induction false} ColumnIndexInserted(p: seq<Name>, k: nat, x: Name, name: string)
    requires ColumnIndex(p, name) == Some(k)
    ensures ColumnIndex(p[..k + 1] + [x] + p[k + 1..], name) == Some(k)
  {
    var s := p[..k + 1] + [x] + p[k + 1..];
    assert forall j :: 0 <= j <= k ==> s[j] == p[j];
    var c := ColumnIndex(s, name);
    assert c.Some? && c.value <= k;
  }

  /** Moving position `q` of a row to just after position `k` of the
      others: the moved element lands at `k + 1`, and removing it there
      leaves the row without position `q`. */
  lemma MoveInRow<T>(s: seq<T>, q: nat, k: nat)
    requires q < |s| && k + 1 < |s|
    ensures var rest := RemoveAt(Range(|s|), q);
      var order := rest[..k + 1] + [q] + rest[k + 1..];
      && (forall j :: 0 <= j < |order| ==> order[j] < |s|)
      && Pick(s, order) == Pick(s, rest)[..k + 1] + [s[q]] + Pick(s, rest)[k + 1..]
      && Pick(s, order)[k + 1] == s[q]
      && RemoveAt(Pick(s, order), k + 1) == RemoveAt(s, q)
  {
    var rest := RemoveAt(Range(|s|), q);
    PickAllBut(s, q);
    PickInserted(s, rest, k, q);
    RemoveInserted(Pick(s, rest), k, s[q]);
  }

  /** app.py:211-215: the display-name column (first occurrence, at `q`)
      is taken out of the column list and put back right after `nro`. */
  lemma {:induction false} MoveAfterNro(t: Table, q: nat, order: seq<nat>, k: nat)
    requires Shaped(t) && q < |t.header|
    requires t.header[q] == Some(DisplayColumn)
    requires var rest := RemoveAt(Range(|t.header|), q);
      && ColumnIndex(Pick(t.header, rest), NroColumn) == Some(k)
      && order == rest[..k + 1] + [q] + rest[k + 1..]
    ensures forall j :: 0 <= j < |order| ==> order[j] < |t.header|
    ensures var out := Select(t, order);
      && ColumnIndex(out.header, NroColumn) == Some(k)
      && k + 1 < |out.header| && out.header[k + 1] == Some(DisplayColumn)
      && RemoveColumnAt(out, k + 1) == RemoveColumnAt(t, q)
      && forall i :: 0 <= i < |t.rows| ==> out.rows[i][k + 1] == t.rows[i][q]
  {
    var rest := RemoveAt(Range(|t.header|), q);
    PickAllBut(t.header, q);
    MoveInRow(t.header, q, k);
    ColumnIndexInserted(Pick(t.header, rest), k, t.header[q], NroColumn);
    MovedRows(t, q, k);
    MovedTable(t, q, k);
  }

  /** Removing the moved column again gives the table without column `q`. */
  lemma MovedTable(t: Table, q: nat, k: nat)
    requires Shaped(t) && q < |t.header| && k + 1 < |t.header|
    ensures var rest := RemoveAt(Range(|t.header|), q);
      var order := rest[..k + 1] + [q] + rest[k + 1..];
      && (forall j :: 0 <= j < |order| ==> order[j] < |t.header|)
      && RemoveColumnAt(Select(t, order), k + 1) == RemoveColumnAt(t, q)
  {
    var rest := RemoveAt(Range(|t.header|), q);
    var order := rest[..k + 1] + [q] + rest[k + 1..];
    MoveInRow(t.header, q, k);
    MovedRows(t, q, k);
    assert RemoveColumnAt(Select(t, order), k + 1).rows == RemoveColumnAt(t, q).rows;
  }

  /** The rows of the reordered table: each loses exactly its cell at `q`
      when the moved cell is removed again. */
  lemma MovedRows(t: Table, q: nat, k: nat)
    requires Shaped(t) && q < |t.header| && k + 1 < |t.header|
    ensures var rest := RemoveAt(Range(|t.header|), q);
      var order := rest[..k + 1] + [q] + rest[k + 1..];
      && (forall j :: 0 <= j < |order| ==> order[j] < |t.header|)
      && forall i :: 0 <= i < |t.rows| ==>
           && RemoveAt(Select(t, order).rows[i], k + 1) == RemoveAt(t.rows[i], q)
           && Select(t, order).rows[i][k + 1] == t.rows[i][q]
  {
    var rest := RemoveAt(Range(|t.header|), q);
    var order := rest[..k + 1] + [q] + rest[k + 1..];
    MoveInRow(t.header, q, k);
    forall i | 0 <= i < |t.rows|
      ensures RemoveAt(Select(t, order).rows[i], k + 1) == RemoveAt(t.rows[i], q)
      ensures Select(t, order).rows[i][k + 1] == t.rows[i][q]
    {
      MoveInRow(t.rows[i], q, k);
    }
  }

  /** Removing a column labelled `name` keeps every other label. */
  lemma DropKeepsOthers(t: Table, name: string, other: string)
    requires Shaped(t) && other != name
    ensures Some(other) in DropColumn(t, name).header <==> Some(other) in t.header
  {
    match ColumnIndex(t.header, name)
    case None =>
    case Some(q) =>
      var h := RemoveAt(t.header, q);
      assert h == t.header[..q] + t.header[q + 1..];
      assert t.header == t.header[..q] + [t.header[q]] + t.header[q + 1..];
  }

  /** Without the display-name column, the labels are those of `p` less
      any display-name column, so `nro` is found exactly when `p` has it. */
  lemma NroKept(p: Table, n: nat, pa: nat, m: nat)
    requires Shaped(p) && n < |p.header| && pa < |p.header| && m < |p.header|
    ensures var t := SetColumn(p, DisplayColumn, DisplayNames(p, n, pa, m));
      var q := ColumnIndex(t.header, DisplayColumn).value;
      && (forall j :: 0 <= j < |RemoveAt(Range(|t.header|), q)| ==> RemoveAt(Range(|t.header|), q)[j] < |t.header|)
      && (ColumnIndex(Pick(t.header, RemoveAt(Range(|t.header|), q)), NroColumn).Some? <==> Some(NroColumn) in p.header)
  {
    var t := SetColumn(p, DisplayColumn, DisplayNames(p, n, pa, m));
    var q := ColumnIndex(t.header, DisplayColumn).value;
    PickAllBut(t.header, q);
    assert Pick(t.header, RemoveAt(Range(|t.header|), q)) == DropColumn(p, DisplayColumn).header;
    DropKeepsOthers(p, DisplayColumn, NroColumn);
  }

  /** The reordered table is the normalised roster. */
  lemma Placed(p: Table, n: nat, pa: nat, m: nat, k: nat, order: seq<nat>)
    requires Shaped(p) && n < |p.header| && pa < |p.header| && m < |p.header|
    requires var t := SetColumn(p, DisplayColumn, DisplayNames(p, n, pa, m));
      var q := ColumnIndex(t.header, DisplayColumn).value;
      var rest := RemoveAt(Range(|t.header|), q);
      && ColumnIndex(Pick(t.header, rest), NroColumn) == Some(k)
      && order == rest[..k + 1] + [q] + rest[k + 1..]
    ensures var t := SetColumn(p, DisplayColumn, DisplayNames(p, n, pa, m));
      && (forall j :: 0 <= j < |order| ==> order[j] < |t.header|)
      && NormalizedFrom(p, n, pa, m, Select(t, order))
  {
    var t := SetColumn(p, DisplayColumn, DisplayNames(p, n, pa, m));
    var q := ColumnIndex(t.header, DisplayColumn).value;
    MoveAfterNro(t, q, order, k);
    assert DropColumn(t, DisplayColumn) == RemoveColumnAt(t, q);
  }

  /** app.py:208-215 on the table `p`: build the display-name column and
      place it right after `nro`; a table without `nro` is refused. */
  method InsertDisplayName(p: Table, n: nat, pa: nat, m: nat) returns (r: Result<Table, NormError>)
    requires Shaped(p) && n < |p.header| && pa < |p.header| && m < |p.header|
    ensures Some(NroColumn) !in p.header ==> r == Failure(MissingColumn(NroColumn))
    ensures Some(NroColumn) in p.header ==> r.Success? && NormalizedFrom(p, n, pa, m, r.value)
  {
    var display := DisplayNames(p, n, pa, m);
    var t := SetColumn(p, DisplayColumn, display);
    // take the display-name column out of the column order
    var q := ColumnIndex(t.header, DisplayColumn).value;
    var columns := RemoveAt(Range(|t.header|), q);
    NroKept(p, n, pa, m);
    // find nro among the remaining columns
    var nro := ColumnIndex(Pick(t.header, columns), NroColumn);
    if nro.None? {
      return Failure(MissingColumn(NroColumn));
    }
    var k := nro.value;
    // put the display-name column back right after nro
    columns := columns[..k + 1] + [q] + columns[k + 1..];
    Placed(p, n, pa, m, k, columns);
    return Success(Select(t, columns));
  }

  /** `procesar_excel_inicial` (app.py:178-220), from the decoded sheet on.
      Each failure path of the source becomes a `Failure`. */
  method NormalizeRoster(sheet: Sheet) returns (r: Result<Table, NormError>)
    requires SheetShaped(sheet)
    ensures |sheet.rows| <= HeaderRow ==> r == Failure(NoHeaderRow)
    ensures |sheet.rows| > HeaderRow ==>
      var p := FixScores(Promote(sheet));
      match NameColumns(p)
      case Failure(e) => r == Failure(e)
      case Success(ks) =>
        && (Some(NroColumn) !in p.header ==> r == Failure(MissingColumn(NroColumn)))
        && (Some(NroColumn) in p.header ==> r.Success? && NormalizedFrom(p, ks.0, ks.1, ks.2, r.value))
  {
    if |sheet.rows| <= HeaderRow {
      return Failure(NoHeaderRow);
    }
    var t := Promote(sheet);
    t := FixScores(t);
    var names := NameColumns(t);
    if names.Failure? {
      return Failure(names.error);
    }
    var (n, pa, m) := names.value;
    r := InsertDisplayName(t, n, pa, m);
  }
}
