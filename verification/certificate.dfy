/** What `generar_certificados_grupo` (app.py:300-402) decides for one row
    of a group: the texts on the certificate, which fields are drawn, the
    page, whether the watermark is applied and with which overlay, and the
    name of the archive entry; plus the Spanish date of `mes_en_espanol`
    (app.py:45-63). */
module Certificate {
  import opened Wrappers
  import opened Text
  import opened Roster
  import opened Styles
  import opened Layout

  // ---------------------------------------------------------------- date

  /** A calendar date; the program uses the day it runs. */
  datatype Date = Date(year: nat, month: nat, day: nat)

  predicate ValidDate(d: Date) {
    1 <= d.month <= 12 && 1 <= d.day <= 31
  }

  /** `strftime('%B')` in the English locale. */
  const EnglishMonths: seq<string> := ["January", "February", "March", "April", "May", "June",
    "July", "August", "September", "October", "November", "December"]

  /** The translation table of app.py:46-59. */
  const Meses: map<string, string> := map[
    "January" := "enero", "February" := "febrero", "March" := "marzo",
    "April" := "abril", "May" := "mayo", "June" := "junio",
    "July" := "julio", "August" := "agosto", "September" := "septiembre",
    "October" := "octubre", "November" := "noviembre", "December" := "diciembre"]

  /** `meses.get(english, english)`. */
  function SpanishMonth(month: nat): string
    requires 1 <= month <= 12
  {
    var english := EnglishMonths[month - 1];
    if english in Meses then Meses[english] else english
  }

  /** `mes_en_espanol`: `"%d de <mes> del %Y"`, the day with two digits. */
  function MesEnEspanol(d: Date): (r: string)
    requires ValidDate(d)
    ensures var m := SpanishMonth(d.month); var k := 6 + |m|;
      && |r| > k + 5
      && AllDigits(r[..2]) && DigitsValue(r[..2]) == d.day
      && r[2..6] == " de " && r[6..k] == m && r[k..k + 5] == " del "
      && AllDigits(r[k + 5..]) && DigitsValue(r[k + 5..]) == d.year
  {
    DayWidth(d.day);
    var day, m, y := ZeroPad(d.day, 2), SpanishMonth(d.month), Decimal(d.year);
    var r := day + " de " + m + " del " + y;
    assert r[..2] == day && r[2..6] == " de " && r[6..6 + |m|] == m;
    assert r[6 + |m|..11 + |m|] == " del " && r[11 + |m|..] == y;
    r
  }

  /** Every English month name is in the table, so the fallback to the
      English name is never taken. */
  lemma MonthAlwaysTranslated(month: nat)
    requires 1 <= month <= 12
    ensures EnglishMonths[month - 1] in Meses
    ensures SpanishMonth(month) == Meses[EnglishMonths[month - 1]]
  {
  }

  lemma SpanishMonthWord(month: nat)
    requires 1 <= month <= 12
    ensures SpanishMonth(month) != [] && ' ' !in SpanishMonth(month)
  {
  }

  lemma SpanishMonthInjective(m1: nat, m2: nat)
    requires 1 <= m1 <= 12 && 1 <= m2 <= 12
    requires SpanishMonth(m1) == SpanishMonth(m2)
    ensures m1 == m2
  {
    var s1, s2 := SpanishMonth(m1), SpanishMonth(m2);
    assert |s1| == |s2| && s1[0] == s2[0];
  }

  /** Equal strings cut at the same length give equal pieces. */
  lemma SplitAtLength(a: string, b: string, c: string, d: string)
    requires a + b == c + d && |a| == |c|
    ensures a == c && b == d
  {
    assert a == (a + b)[..|a|] && c == (c + d)[..|c|];
    assert b == (a + b)[|a|..] && d == (c + d)[|c|..];
  }

  /** Two words followed by a space split the same way only if they are the
      same word. */
  lemma {:induction false} SplitAtSpace(a: string, b: string, c: string, d: string)
    requires ' ' !in a && ' ' !in c
    requires a + " " + b == c + " " + d
    ensures a == c && b == d
  {
    if |a| == |c| {
      assert a + " " + b == a + (" " + b) && c + " " + d == c + (" " + d);
      SplitAtLength(a, " " + b, c, " " + d);
      assert b == (" " + b)[1..] && d == (" " + d)[1..];
    } else if |a| < |c| {
      SpaceAfter(a, b);
      SpaceAfter(c, d);
      assert false;
    } else {
      SpaceAfter(a, b);
      SpaceAfter(c, d);
      assert false;
    }
  }

  lemma SpaceAfter(a: string, b: string)
    ensures (a + " " + b)[|a|] == ' '
    ensures forall i :: 0 <= i < |a| ==> (a + " " + b)[i] == a[i]
  {
  }

  /** A day of the month prints as exactly two digits. */
  lemma DayWidth(day: nat)
    requires day < 100
    ensures |ZeroPad(day, 2)| == 2
  {
    if day >= 10 {
      assert Decimal(day) == Decimal(day / 10) + [DigitChar(day % 10)];
    }
  }

  lemma DecimalInjective(m: nat, n: nat)
    requires Decimal(m) == Decimal(n)
    ensures m == n
  {
  }

  /** The pieces of a printed date are recovered from it: a two-character
      day, a month word without spaces, and the year. */
  lemma {:induction false} SplitDate(p1: string, m1: string, y1: string, p2: string, m2: string, y2: string)
    requires |p1| == 2 && |p2| == 2 && ' ' !in m1 && ' ' !in m2
    requires p1 + " de " + m1 + " del " + y1 == p2 + " de " + m2 + " del " + y2
    ensures p1 == p2 && m1 == m2 && y1 == y2
  {
    var t1, t2 := m1 + " " + ("del " + y1), m2 + " " + ("del " + y2);
    assert p1 + " de " + m1 + " del " + y1 == p1 + (" de " + t1);
    assert p2 + " de " + m2 + " del " + y2 == p2 + (" de " + t2);
    SplitAtLength(p1, " de " + t1, p2, " de " + t2);
    SplitAtLength(" de ", t1, " de ", t2);
    SplitAtSpace(m1, "del " + y1, m2, "del " + y2);
    SplitAtLength("del ", y1, "del ", y2);
  }

  /** The printed date determines the date: different days never print
      alike. */
  lemma {:induction false} MesEnEspanolInjective(d1: Date, d2: Date)
    requires ValidDate(d1) && ValidDate(d2)
    requires MesEnEspanol(d1) == MesEnEspanol(d2)
    ensures d1 == d2
  {
    DayWidth(d1.day);
    DayWidth(d2.day);
    SpanishMonthWord(d1.month);
    SpanishMonthWord(d2.month);
    SplitDate(ZeroPad(d1.day, 2), SpanishMonth(d1.month), Decimal(d1.year),
              ZeroPad(d2.day, 2), SpanishMonth(d2.month), Decimal(d2.year));
    SpanishMonthInjective(d1.month, d2.month);
    DecimalInjective(d1.year, d2.year);
  }

  // ---------------------------------------------------- texts of the row

  const NumberColumn := "numeración"
  const HoursColumn := "horas_progresivo"
  const CourseColumn := "curso"

  /** `str(value)` of a cell; a blank (NaN) prints as "nan". */
  function CellText(c: Cell): string {
    match c
    case Blank => "nan"
    case Str(s) => s
    case Num(_, shown) => shown
  }

  /** The labels of a table's columns. */
  function Labels(t: Table): set<string> {
    set k | 0 <= k < |t.header| && t.header[k].Some? :: t.header[k].value
  }

  lemma LabelFound(t: Table, name: string)
    ensures name in Labels(t) <==> ColumnIndex(t.header, name).Some?
  {
    if name in Labels(t) {
      var k :| 0 <= k < |t.header| && t.header[k] == Some(name);
      assert Some(name) in t.header;
    }
    if ColumnIndex(t.header, name).Some? {
      var k := ColumnIndex(t.header, name).value;
      assert t.header[k].value in Labels(t);
    }
  }

  /** `row[name]` when the row has that label. */
  function CellAt(t: Table, i: nat, name: string): Option<Cell>
    requires Shaped(t) && i < |t.rows|
  {
    match ColumnIndex(t.header, name)
    case None => None
    case Some(k) => Some(t.rows[i][k])
  }

  /** `f"GEN-{i + 1:03}"`. */
  function GeneratedNumber(index: nat): string {
    "GEN-" + ZeroPad(index + 1, 3)
  }

  /** The generated number reads back as the row's position plus one. */
  lemma GeneratedNumberReadsBack(index: nat)
    ensures var n := GeneratedNumber(index);
      && |n| >= 7 && n[..4] == "GEN-"
      && AllDigits(n[4..]) && DigitsValue(n[4..]) == index + 1
  {
    var n := GeneratedNumber(index);
    assert n[4..] == ZeroPad(index + 1, 3);
  }

  /** Different rows never get the same generated number. */
  lemma GeneratedNumbersDistinct(i: nat, j: nat)
    requires i != j
    ensures GeneratedNumber(i) != GeneratedNumber(j)
  {
    GeneratedNumberReadsBack(i);
    GeneratedNumberReadsBack(j);
  }

  /** app.py:329-333: the stripped `numeración` when the row has a value
      there, otherwise the number generated from the row's position. */
  function CertificateNumber(t: Table, i: nat): (n: string)
    requires Shaped(t) && i < |t.rows|
    ensures CellAt(t, i, NumberColumn).Some? && !CellAt(t, i, NumberColumn).value.Blank? ==>
      n == Strip(CellText(CellAt(t, i, NumberColumn).value))
    ensures CellAt(t, i, NumberColumn).None? || CellAt(t, i, NumberColumn).value.Blank? ==>
      n == GeneratedNumber(i)
  {
    match CellAt(t, i, NumberColumn)
    case Some(c) => if c.Blank? then GeneratedNumber(i) else Strip(CellText(c))
    case None => GeneratedNumber(i)
  }

  /** The texts read from one row. */
  datatype RowTexts = RowTexts(nombre: string, curso: string, numero: string, horas: string)

  /** app.py:325-340. The display name, which normalisation always adds,
      is read first; then the course, whose absence raises an error that the
      per-row handler catches (`Failure` names the label). The hours are
      read only for `fondo_1`. */
  function ReadRow(t: Table, i: nat, template: Template): (r: Result<RowTexts, string>)
    requires Shaped(t) && i < |t.rows| && DisplayColumn in Labels(t)
    ensures r.Failure? <==> CellAt(t, i, CourseColumn).None?
    ensures r.Success? ==> r.value.numero == CertificateNumber(t, i)
    ensures r.Success? ==> (r.value.horas != "" ==> template == Fondo1)
    ensures r.Success? ==>
      && CellAt(t, i, DisplayColumn).Some? && CellAt(t, i, CourseColumn).Some?
      && r.value.nombre == Upper(Strip(CellText(CellAt(t, i, DisplayColumn).value)))
      && r.value.curso == Upper(Strip(CellText(CellAt(t, i, CourseColumn).value)))
    ensures r.Success? ==>
      r.value.horas ==
        if template == Fondo1 && CellAt(t, i, HoursColumn).Some? && !CellAt(t, i, HoursColumn).value.Blank?
        then CellText(CellAt(t, i, HoursColumn).value) else ""
  {
    LabelFound(t, DisplayColumn);
    match (CellAt(t, i, DisplayColumn), CellAt(t, i, CourseColumn))
    case (_, None) => Failure(CourseColumn)
    case (Some(n), Some(c)) =>
      var horas :=
        match CellAt(t, i, HoursColumn)
        case Some(h) => if template == Fondo1 && !h.Blank? then CellText(h) else ""
        case None => "";
      Success(RowTexts(Upper(Strip(CellText(n))), Upper(Strip(CellText(c))), CertificateNumber(t, i), horas))
  }

  /** A display name that normalisation left blank, because a name part is
      a number, prints as "NAN". */
  lemma NumericNamePartPrintsNan(nombre: Cell, paterno: Cell, materno: Cell)
    requires nombre.Num? || paterno.Num? || materno.Num?
    ensures Upper(Strip(CellText(DisplayName(nombre, paterno, materno)))) == "NAN"
  {
    assert DisplayName(nombre, paterno, materno) == Blank;
    NanText();
  }

  lemma NanText()
    ensures Upper(Strip(CellText(Blank))) == "NAN"
  {
    var s := CellText(Blank);
    assert s == "nan";
    SpaceRunEndAt(s, 0, 0);
    SpaceRunStartAt(s, 3, 3);
    assert Strip(s) == s;
    assert '\U{DF}' !in s;
    var u := Upper(s);
    assert |u| == 3 && u[0] == 'N' && u[1] == 'A' && u[2] == 'N';
    assert u == "NAN";
  }

  // ------------------------------------------------------- fields drawn

  /** app.py:356-365: name, course and date always, in that order; the
      hours on `fondo_1` when there are some; the number except on
      `fondo_2`. */
  function DrawnFields(template: Template, horas: string): (fs: seq<Field>)
    ensures |fs| >= 3 && fs[..3] == [Nombre, Curso, Fecha]
    ensures Horas in fs <==> template == Fondo1 && horas != ""
    ensures Numero in fs <==> template != Fondo2
    ensures |fs| == 3 + (if template == Fondo1 && horas != "" then 1 else 0) + (if template != Fondo2 then 1 else 0)
    ensures forall j, k :: 0 <= j < k < |fs| ==> !(fs[j] == Numero && fs[k] == Horas)
    ensures forall k :: 0 <= k < |fs| ==> StyleOf(template, fs[k]).Some?
  {
    [Nombre, Curso, Fecha]
      + (if template == Fondo1 && horas != "" then [Horas] else [])
      + (if template != Fondo2 then [Numero] else [])
  }

  /** The text drawn for each field. */
  function FieldText(f: Field, row: RowTexts, fecha: string): string {
    match f
    case Nombre => row.nombre
    case Curso => row.curso
    case Fecha => "Lima, " + fecha
    case Horas => row.horas
    case Numero => "Certificado N\U{BA} " + row.numero
  }

  /** The width passed for wrapping: the style's for the name and the
      course, none for the rest. */
  function WidthArgument(template: Template, f: Field): Option<real>
    requires StyleOf(template, f).Some?
  {
    if f == Nombre || f == Curso then StyleOf(template, f).value.maxWidth else None
  }

  /** How wide a text is in the font chosen for a style. */
  type Measure = (Style, string) -> real

  /** One certificate page: its template, its size in points and the texts
      drawn over the background. */
  datatype Page = Page(template: Template, width: real, height: real, draws: seq<Draw>)

  /** The lines one field puts on the page: its text laid out in its
      style by `draw_multiline_text`, wrapped for the name and the course. */
  function FieldDraws(template: Template, f: Field, row: RowTexts, fecha: string,
                      pageWidth: real, measure: Measure): seq<Draw>
    requires StyleOf(template, f).Some?
  {
    var style := StyleOf(template, f).value;
    DrawText(FieldText(f, row, fecha), style, pageWidth,
             (s: string) => measure(style, s), WidthArgument(template, f)).draws
  }

  /** What every field puts on the page; nothing for a field the template
      has no style for. */
  function FieldBlocks(template: Template, row: RowTexts, fecha: string,
                       pageWidth: real, measure: Measure): Field -> seq<Draw> {
    (f: Field) => if StyleOf(template, f).Some? then FieldDraws(template, f, row, fecha, pageWidth, measure) else []
  }

  /** The fields drawn one after the other. */
  function DrawFields(fs: seq<Field>, block: Field -> seq<Draw>): seq<Draw> {
    if fs == [] then [] else block(fs[0]) + DrawFields(fs[1..], block)
  }

  lemma {:induction false} DrawFieldsAppend(a: seq<Field>, b: seq<Field>, block: Field -> seq<Draw>)
    ensures DrawFields(a + b, block) == DrawFields(a, block) + DrawFields(b, block)
  {
    if a == [] {
      assert a + b == b;
    } else {
      assert (a + b)[0] == a[0] && (a + b)[1..] == a[1..] + b;
      DrawFieldsAppend(a[1..], b, block);
    }
  }

  /** The drawn fields of a page, block by block in drawing order. */
  lemma PageFields(template: Template, horas: string, block: Field -> seq<Draw>)
    ensures DrawFields(DrawnFields(template, horas), block)
         == block(Nombre) + block(Curso) + block(Fecha)
          + (if template == Fondo1 && horas != "" then block(Horas) else [])
          + (if template != Fondo2 then block(Numero) else [])
  {
    var hs: seq<Field> := if template == Fondo1 && horas != "" then [Horas] else [];
    var ns: seq<Field> := if template != Fondo2 then [Numero] else [];
    assert DrawnFields(template, horas) == [Nombre, Curso, Fecha] + (hs + ns);
    assert DrawFields(hs, block) == (if template == Fondo1 && horas != "" then block(Horas) else []) by {
      if hs != [] { assert hs[1..] == []; }
    }
    assert DrawFields(ns, block) == (if template != Fondo2 then block(Numero) else []) by {
      if ns != [] { assert ns[1..] == []; }
    }
    FieldsInParts(hs, ns, block);
  }

  lemma FieldsInParts(hs: seq<Field>, ns: seq<Field>, block: Field -> seq<Draw>)
    ensures DrawFields([Nombre, Curso, Fecha] + (hs + ns), block)
         == block(Nombre) + block(Curso) + block(Fecha) + DrawFields(hs, block) + DrawFields(ns, block)
  {
    var x, h, n := DrawFields([Nombre, Curso, Fecha], block), DrawFields(hs, block), DrawFields(ns, block);
    DrawFieldsAppend([Nombre, Curso, Fecha], hs + ns, block);
    DrawFieldsAppend(hs, ns, block);
    FixedFields(block);
    assert x + (h + n) == x + h + n;
  }

  lemma FixedFields(block: Field -> seq<Draw>)
    ensures DrawFields([Nombre, Curso, Fecha], block) == block(Nombre) + block(Curso) + block(Fecha)
  {
    var fs: seq<Field> := [Nombre, Curso, Fecha];
    assert fs[1..] == [Curso, Fecha] && fs[1..][1..] == [Fecha] && fs[1..][1..][1..] == [];
  }


  /** app.py:316-365: the page in the template's orientation with the
      name, the course and the date drawn, then the hours on `fondo_1` when
      there are some, then the number except on `fondo_2`; every field's
      lines are laid out in the template's style for that field. */
  function CertificatePage(template: Template, row: RowTexts, fecha: string, measure: Measure): (p: Page)
    ensures p.template == template && (p.width, p.height) == PageSize(template)
    ensures p.width > p.height <==> template != Fondo2
    ensures p.draws == DrawFields(DrawnFields(template, row.horas), FieldBlocks(template, row, fecha, p.width, measure))
  {
    var (width, height) := PageSize(template);
    var block := FieldBlocks(template, row, fecha, width, measure);
    PageFields(template, row.horas, block);
    Page(template, width, height,
         block(Nombre) + block(Curso) + block(Fecha)
         + (if template == Fondo1 && row.horas != "" then block(Horas) else [])
         + (if template != Fondo2 then block(Numero) else []))
  }

  // ------------------------------------------------------------ watermark

  /** app.py:306-312: the second letter of the file name, upper-cased, is
      `I`, the template is not `fondo_2`, and the watermark file exists. */
  predicate WatermarkApplies(fileName: string, template: Template, watermarkFile: bool): (b: bool)
    ensures b <==> |fileName| >= 2 && (fileName[1] == 'i' || fileName[1] == 'I') && template != Fondo2 && watermarkFile
  {
    |fileName| >= 2 && UpperChar(fileName[1]) == 'I' && template != Fondo2 && watermarkFile
  }

  datatype Overlay = DefaultMark | LandscapeMark

  /** app.py:80-90: a landscape page takes the landscape overlay when that
      file exists; anything else takes the default one. */
  function OverlayFor(width: real, height: real, landscapeFile: bool): (o: Overlay)
    ensures o == LandscapeMark <==> width > height && landscapeFile
  {
    if width > height && landscapeFile then LandscapeMark else DefaultMark
  }

  lemma OverlayOfTemplate(template: Template, landscapeFile: bool)
    ensures var (w, h) := PageSize(template);
      OverlayFor(w, h, landscapeFile) == LandscapeMark <==> template != Fondo2 && landscapeFile
  {
  }

  // ----------------------------------------------------------- the entry

  const ConstanciasFolder := "Constancias/"

  /** app.py:379-382: the folder for `fondo_2`, then the stripped name and
      the first eleven characters of the course, spaces turned into
      underscores. */
  function EntryName(template: Template, nombre: string, curso: string): (name: string)
    ensures PdfName(name)
    ensures template == Fondo2 ==> HasPrefix(name, ConstanciasFolder)
  {
    var n, c := ReplaceSpaces(Strip(nombre)), ReplaceSpaces(Take(curso, 11));
    var folder := if template == Fondo2 then ConstanciasFolder else "";
    FileParts(n, c);
    FolderHasNoSpace();
    InFolder(folder, n + "_" + c + ".pdf");
    folder + (n + "_" + c + ".pdf")
  }

  predicate HasPrefix(s: string, p: string) {
    |p| <= |s| && s[..|p|] == p
  }

  /** The name of a certificate entry: no space, ending in ".pdf". */
  predicate PdfName(name: string) {
    ' ' !in name && |name| >= 5 && name[|name| - 4..] == ".pdf"
  }

  lemma {:induction false} StripKeepsOut(s: string, c: char)
    requires c !in s
    ensures c !in Strip(s)
  {
    var t := StripStart(s);
    var r := StripEnd(t);
    assert Strip(s) == r;
  }

  /** A file name built from a text with no small `o` is never inside the
      Constancias folder. */
  lemma OutsideFolder(n: string, c: string)
    requires 'o' !in n
    ensures !HasPrefix(n + "_" + c + ".pdf", ConstanciasFolder)
  {
    var name := n + "_" + c + ".pdf";
    if |n| == 0 {
      assert name[0] == '_';
    } else if |n| == 1 {
      assert name[1] == '_';
    } else {
      assert name[1] == n[1];
    }
  }

  /** A spaceless stem, an underscore, a spaceless rest and the extension
      make a PDF name. */
  lemma FileParts(n: string, c: string)
    requires ' ' !in n && ' ' !in c
    ensures PdfName(n + "_" + c + ".pdf")
  {
    var name := n + "_" + c + ".pdf";
    assert name[|name| - 4..] == ".pdf";
  }

  /** A spaceless folder keeps a PDF name a PDF name, and prefixes it. */
  lemma InFolder(folder: string, name: string)
    requires ' ' !in folder && PdfName(name)
    ensures PdfName(folder + name) && HasPrefix(folder + name, folder)
  {
    var full := folder + name;
    assert full[|full| - 4..] == name[|name| - 4..];
    assert full[..|folder|] == folder;
  }

  lemma FolderHasNoSpace()
    ensures ' ' !in ConstanciasFolder
  {
    var f := ConstanciasFolder;
    forall j | 0 <= j < |f| ensures f[j] != ' ' {
    }
  }

  /** The stripped name keeps the name's absence of a small `o`. */
  lemma NoSmallO(nombre: string)
    requires 'o' !in nombre
    ensures 'o' !in ReplaceSpaces(Strip(nombre))
  {
    StripKeepsOut(nombre, 'o');
    var t := Strip(nombre);
    forall j | 0 <= j < |t| ensures ReplaceSpaces(t)[j] != 'o' {
      assert t[j] in t;
    }
  }

  /** The entry name of an upper-cased name is a PDF name, in the
      Constancias folder exactly for `fondo_2`: outside `fondo_2` it cannot
      start with the folder's name, whose small letters an upper-cased name
      never holds. */
  lemma {:induction false} EntryNameShape(template: Template, x: string, curso: string)
    ensures PdfName(EntryName(template, Upper(x), curso))
    ensures HasPrefix(EntryName(template, Upper(x), curso), ConstanciasFolder) <==> template == Fondo2
  {
    var nombre := Upper(x);
    UpperHasNoSmallO(x);
    var n := ReplaceSpaces(Strip(nombre));
    var c := ReplaceSpaces(Take(curso, 11));
    if template != Fondo2 {
      assert EntryName(template, nombre, curso) == n + "_" + c + ".pdf";
      NoSmallO(nombre);
      OutsideFolder(n, c);
    }
  }

  // ------------------------------------------------------------- one row

  /** Bytes of a PDF document. */
  type Bytes = seq<bv8>

  /** One file of the archive. */
  datatype ZipEntry = ZipEntry(name: string, data: Bytes)

  /** What a run draws on besides the roster: the uploaded file's name, the
      day of the run, whether the two watermark files exist, how wide a
      text is in a style's font, the PDF renderer (`None` when drawing
      raises) and the watermark stamper (`None` when stamping raises). */
  datatype Env = Env(
    fileName: string,
    today: Date,
    watermarkFile: bool,
    landscapeWatermarkFile: bool,
    measure: Measure,
    render: Page -> Option<Bytes>,
    stamp: (Bytes, Overlay) -> Option<Bytes>)

  predicate EnvOk(env: Env) {
    ValidDate(env.today)
  }

  /** Why a row produced no certificate. */
  datatype RowError = NoColumn(column: string) | RenderFailed

  /** The page of a row that reads. */
  function RowPage(row: RowTexts, template: Template, env: Env): Page
    requires EnvOk(env)
  {
    CertificatePage(template, row, MesEnEspanol(env.today), env.measure)
  }

  /** The watermarked PDF, or the PDF unchanged when stamping fails
      (app.py:65-103). */
  function Stamped(pdf: Bytes, page: Page, env: Env): Bytes {
    match env.stamp(pdf, OverlayFor(page.width, page.height, env.landscapeWatermarkFile))
    case Some(marked) => marked
    case None => pdf
  }

  /** app.py:324-388 for the row at position `i` of the roster: read it,
      draw its page, watermark it when the group asks for it, and name the
      entry. A failure is reported and skipped by the caller. */
  function RowEntry(t: Table, i: nat, template: Template, env: Env): (r: Result<ZipEntry, RowError>)
    requires Shaped(t) && i < |t.rows| && DisplayColumn in Labels(t) && EnvOk(env)
    ensures r == Failure(NoColumn(CourseColumn)) <==> CellAt(t, i, CourseColumn).None?
    ensures r.Failure? ==> r == Failure(NoColumn(CourseColumn)) || r == Failure(RenderFailed)
    ensures r.Success? ==> PdfName(r.value.name)
  {
    match ReadRow(t, i, template)
    case Failure(column) => Failure(NoColumn(column))
    case Success(row) =>
      var page := RowPage(row, template, env);
      match env.render(page)
      case None => Failure(RenderFailed)
      case Some(pdf) =>
        var data := if WatermarkApplies(env.fileName, template, env.watermarkFile) then Stamped(pdf, page, env) else pdf;
        Success(ZipEntry(EntryName(template, row.nombre, row.curso), data))
  }

  /** A row fails exactly when the roster has no course column or drawing
      its page raises. */
  lemma RowEntryFails(t: Table, i: nat, template: Template, env: Env)
    requires Shaped(t) && i < |t.rows| && DisplayColumn in Labels(t) && EnvOk(env)
    ensures RowEntry(t, i, template, env).Failure? <==>
      || CourseColumn !in Labels(t)
      || (CourseColumn in Labels(t) && env.render(RowPage(ReadRow(t, i, template).value, template, env)).None?)
  {
    LabelFound(t, CourseColumn);
  }

  /** A produced entry has a spaceless PDF name, inside the Constancias
      folder exactly for `fondo_2`; its bytes are the rendered page,
      stamped exactly when the group's watermark applies. */
  lemma RowEntryShape(t: Table, i: nat, template: Template, env: Env)
    requires Shaped(t) && i < |t.rows| && DisplayColumn in Labels(t) && EnvOk(env)
    requires RowEntry(t, i, template, env).Success?
    ensures var e := RowEntry(t, i, template, env).value;
      var row := ReadRow(t, i, template).value;
      var page := RowPage(row, template, env);
      && e.name == (if template == Fondo2 then ConstanciasFolder else "")
                   + (ReplaceSpaces(Strip(row.nombre)) + "_" + ReplaceSpaces(Take(row.curso, 11)) + ".pdf")
      && PdfName(e.name)
      && (HasPrefix(e.name, ConstanciasFolder) <==> template == Fondo2)
      && env.render(page).Some?
      && e.data == if WatermarkApplies(env.fileName, template, env.watermarkFile)
                   then Stamped(env.render(page).value, page, env)
                   else env.render(page).value
  {
    var row := ReadRow(t, i, template).value;
    EntryNameShape(template, Strip(CellText(CellAt(t, i, DisplayColumn).value)), row.curso);
  }

  /** The participation template never draws the number and is never
      watermarked; the progressive template is the only one that draws
      the hours. */
  lemma TemplateDecisions(t: Table, i: nat, template: Template, env: Env)
    requires Shaped(t) && i < |t.rows| && DisplayColumn in Labels(t) && EnvOk(env)
    requires ReadRow(t, i, template).Success?
    ensures var row := ReadRow(t, i, template).value;
      && (template == Fondo2 ==> Numero !in DrawnFields(template, row.horas)
                                 && !WatermarkApplies(env.fileName, template, env.watermarkFile))
      && (Horas in DrawnFields(template, row.horas) ==> template == Fondo1)
  {
  }
}
