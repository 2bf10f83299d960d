/** The eligibility classifier, `clasificar_estudiantes_por_nota`
    (app.py:138-175): it splits the normalised roster into the four groups
    that decide which certificate template each student receives. */
module Classify {
  import opened Wrappers
  import opened Text
  import opened Roster

  const GradeColumn := "grado"
  /** The pass mark: a score of 13 or more passes. */
  const PassMark: real := 13.0
  /** Grade codes, lower-cased, of the first certificate design (grupo_3). */
  const LowerGrades: seq<string> := ["1p", "2p", "3p"]
  /** Grade codes, lower-cased, of the second certificate design (grupo_4). */
  const UpperGrades: seq<string> := ["4p", "5p", "1s", "2s", "3s", "4s", "5s"]

  // ------------------------------------------------------ score parsing

  function Pow10(k: nat): (p: nat)
    ensures p >= 1
  {
    if k == 0 then 1 else 10 * Pow10(k - 1)
  }

  /** The position of the first `c` in `s`. */
  function Find(s: string, c: char): (k: Option<nat>)
    ensures k.None? <==> c !in s
    ensures k.Some? ==> k.value < |s| && s[k.value] == c && c !in s[..k.value]
  {
    if s == [] then None
    else if s[0] == c then Some(0)
    else
      match Find(s[1..], c)
      case None => None
      case Some(k) =>
        assert s[..k + 1] == [s[0]] + s[1..][..k];
        Some(k + 1)
  }

  /** An unsigned decimal numeral: digits with an optional fraction after a
      point, and at least one digit on some side of the point. */
  function UnsignedNumeral(s: string): (r: Option<real>)
    ensures r.Some? ==> r.value >= 0.0
  {
    match Find(s, '.')
    case None =>
      if s != [] && AllDigits(s) then Some(DigitsValue(s) as real) else None
    case Some(k) =>
      var whole, frac := s[..k], s[k + 1..];
      if |whole| + |frac| > 0 && AllDigits(whole) && AllDigits(frac)
      then Some(FractionValue(whole, frac))
      else None
  }

  /** The value of the digits `whole` before a point and `frac` after it. */
  function FractionValue(whole: string, frac: string): (v: real)
    requires AllDigits(whole) && AllDigits(frac)
    ensures v >= DigitsValue(whole) as real
  {
    DigitsValue(whole) as real + DigitsValue(frac) as real / Pow10(|frac|) as real
  }

  /** A decimal numeral with an optional sign. */
  function Numeral(s: string): (r: Option<real>)
  {
    if s != [] && (s[0] == '+' || s[0] == '-') then
      match UnsignedNumeral(s[1..])
      case None => None
      case Some(v) => Some(if s[0] == '-' then -v else v)
    else UnsignedNumeral(s)
  }

  /** The whitespace pandas' numeral parser skips around a numeral: the
      ASCII space and the controls from tab to carriage return. */
  predicate ParserSpace(c: char) {
    c == ' ' || '\t' <= c <= '\r'
  }

  /** `pd.to_numeric(..., errors='coerce')` on one cell: a number stays, a
      text is read as a numeral between parser whitespace, anything else is
      NaN (`None`). A text holding any other whitespace is never a number,
      since a numeral holds none. */
  function Score(c: Cell): (r: Option<real>)
    ensures c.Blank? ==> r.None?
    ensures c.Num? ==> r == Some(c.value)
    ensures c.Str? && r.Some? ==>
      forall i :: 0 <= i < |c.text| && IsSpace(c.text[i]) ==> ParserSpace(c.text[i])
  {
    match c
    case Blank => None
    case Num(v, _) => Some(v)
    case Str(s) =>
      if forall i :: 0 <= i < |s| && IsSpace(s[i]) ==> ParserSpace(s[i]) then Numeral(Strip(s)) else None
  }

  /** The decimal digits of a whole number read back as that number, with
      either sign. */
  lemma {:induction false} NumeralOfDecimal(n: nat)
    ensures Numeral(Decimal(n)) == Some(n as real)
    ensures Numeral("-" + Decimal(n)) == Some(-(n as real))
    ensures Numeral("+" + Decimal(n)) == Some(n as real)
  {
    var d := Decimal(n);
    assert '.' !in d;
    assert ("-" + d)[1..] == d;
    assert ("+" + d)[1..] == d;
  }

  // ------------------------------------------------------------- groups

  /** The row positions `df[mask]` keeps: those where the mask is true, in
      order. */
  function RowsWhere(mask: seq<bool>): (r: seq<nat>)
    ensures Increasing(r)
    ensures forall i: nat :: i in r <==> i < |mask| && mask[i]
  {
    if mask == [] then []
    else
      var last := |mask| - 1;
      var r := RowsWhere(mask[..last]);
      assert forall i: nat :: i < last ==> mask[..last][i] == mask[i];
      assert forall j :: 0 <= j < |r| ==> r[j] < last by {
        forall j | 0 <= j < |r| ensures r[j] < last {
          assert r[j] in r;
        }
      }
      if mask[last] then r + [last] else r
  }

  predicate Increasing(r: seq<nat>) {
    forall a, b :: 0 <= a < b < |r| ==> r[a] < r[b]
  }

  /** The four groups as row positions of the roster, which the certificate
      generator reads together with each row's position. */
  datatype Groups = Groups(g1: seq<nat>, g2: seq<nat>, g3: seq<nat>, g4: seq<nat>)

  /** What the classifier hands on: no groups when a column is missing, an
      uncaught refusal of the `.str` accessor on the grade column, or the
      groups. */
  datatype Classification =
    | Unclassified(column: string)
    | GradeNotText
    | Grouped(groups: Groups)

  /** `nombre_archivo.upper().startswith('P')`. */
  predicate ProgressiveFile(fileName: string) {
    var u := Upper(fileName);
    |u| > 0 && u[0] == 'P'
  }

  /** `.str.lower().str.strip()` on a grade cell; `None` for a cell without
      text, which `isin` never matches. */
  function GradeCode(c: Cell): Option<string> {
    if c.Str? then Some(Strip(Lower(c.text))) else None
  }

  predicate Failing(c: Cell) {
    Score(c).Some? && Score(c).value < PassMark
  }

  predicate Passing(c: Cell) {
    Score(c).Some? && Score(c).value >= PassMark
  }

  predicate GradeIn(c: Cell, codes: seq<string>) {
    GradeCode(c).Some? && GradeCode(c).value in codes
  }

  /** The `.str` accessor on the grade column of the passing rows refuses a
      column holding numbers and no text at all. */
  predicate GradeRefused(t: Table, ks: nat, kg: nat)
    requires Shaped(t) && ks < |t.header| && kg < |t.header|
  {
    && (exists i :: 0 <= i < |t.rows| && Passing(t.rows[i][ks]) && t.rows[i][kg].Num?)
    && (forall i :: 0 <= i < |t.rows| && Passing(t.rows[i][ks]) ==> !t.rows[i][kg].Str?)
  }

  /** app.py:138-175. The two columns are looked up first; a progressive
      file sends every row to grupo_1; otherwise the score decides between
      grupo_2 and the passing rows, whose grade picks grupo_3 or grupo_4. */
  function Classify(t: Table, fileName: string): (c: Classification)
    requires Shaped(t)
    ensures Some(ScoreColumn) !in t.header ==> c == Unclassified(ScoreColumn)
    ensures Some(ScoreColumn) in t.header && Some(GradeColumn) !in t.header ==> c == Unclassified(GradeColumn)
    ensures c.Unclassified? ==> Some(ScoreColumn) !in t.header || Some(GradeColumn) !in t.header
  {
    match (ColumnIndex(t.header, ScoreColumn), ColumnIndex(t.header, GradeColumn))
    case (None, _) => Unclassified(ScoreColumn)
    case (_, None) => Unclassified(GradeColumn)
    case (Some(ks), Some(kg)) =>
      var n := |t.rows|;
      if ProgressiveFile(fileName) then
        Grouped(Groups(RowsWhere(seq(n, i => true)), [], [], []))
      else if GradeRefused(t, ks, kg) then
        GradeNotText
      else
        var low := seq(n, i requires 0 <= i < n => Failing(t.rows[i][ks]));
        var lower := seq(n, i requires 0 <= i < n => Passing(t.rows[i][ks]) && GradeIn(t.rows[i][kg], LowerGrades));
        var upper := seq(n, i requires 0 <= i < n => Passing(t.rows[i][ks]) && GradeIn(t.rows[i][kg], UpperGrades));
        Grouped(Groups([], RowsWhere(low), RowsWhere(lower), RowsWhere(upper)))
  }

  // ---------------------------------------------------------- properties

  /** A file counts as progressive exactly when its name starts with the
      letter p, in either case. */
  lemma ProgressiveFileInitial(fileName: string)
    ensures ProgressiveFile(fileName) <==> |fileName| > 0 && (fileName[0] == 'p' || fileName[0] == 'P')
  {
  }

  predicate HasColumns(t: Table) {
    Some(ScoreColumn) in t.header && Some(GradeColumn) in t.header
  }

  /** The score cell and the grade cell of row `i`. */
  function ScoreCell(t: Table, i: nat): Cell
    requires Shaped(t) && HasColumns(t) && i < |t.rows|
  {
    t.rows[i][ColumnIndex(t.header, ScoreColumn).value]
  }

  function GradeCell(t: Table, i: nat): Cell
    requires Shaped(t) && HasColumns(t) && i < |t.rows|
  {
    t.rows[i][ColumnIndex(t.header, GradeColumn).value]
  }

  lemma {:induction false} RowsWhereAll(n: nat)
    ensures RowsWhere(seq(n, i => true)) == Range(n)
  {
    if n > 0 {
      var mask := seq(n, i => true);
      assert mask[..n - 1] == seq(n - 1, i => true);
      RowsWhereAll(n - 1);
      assert Range(n - 1) + [n - 1] == Range(n);
    }
  }

  /** app.py:146-160: with both columns present, a progressive file puts
      the whole roster, in order, in grupo_1 and leaves the others empty. */
  lemma ProgressiveTakesAll(t: Table, fileName: string)
    requires Shaped(t) && HasColumns(t) && ProgressiveFile(fileName)
    ensures Classify(t, fileName) == Grouped(Groups(Range(|t.rows|), [], [], []))
  {
    RowsWhereAll(|t.rows|);
  }

  /** app.py:163-173: otherwise grupo_1 is empty, grupo_2 holds exactly the
      rows whose score is a number below 13, and grupo_3 and grupo_4 exactly
      the rows scoring 13 or more whose grade code is in the matching set. */
  lemma GroupMembers(t: Table, fileName: string, i: nat)
    requires Shaped(t) && HasColumns(t) && !ProgressiveFile(fileName)
    requires Classify(t, fileName).Grouped?
    ensures var g := Classify(t, fileName).groups;
      && g.g1 == []
      && (i in g.g2 <==> i < |t.rows| && Failing(ScoreCell(t, i)))
      && (i in g.g3 <==> i < |t.rows| && Passing(ScoreCell(t, i)) && GradeIn(GradeCell(t, i), LowerGrades))
      && (i in g.g4 <==> i < |t.rows| && Passing(ScoreCell(t, i)) && GradeIn(GradeCell(t, i), UpperGrades))
  {
  }

  /** Every group lists its rows in roster order, each once. */
  lemma GroupsOrdered(t: Table, fileName: string)
    requires Shaped(t) && Classify(t, fileName).Grouped?
    ensures var g := Classify(t, fileName).groups;
      Increasing(g.g1) && Increasing(g.g2) && Increasing(g.g3) && Increasing(g.g4)
  {
    if ProgressiveFile(fileName) {
      ProgressiveTakesAll(t, fileName);
    }
  }

  lemma GradeSetsDisjoint(code: string)
    ensures !(code in LowerGrades && code in UpperGrades)
  {
  }

  /** No row is in two groups. */
  lemma GroupsDisjoint(t: Table, fileName: string, i: nat)
    requires Shaped(t) && Classify(t, fileName).Grouped?
    ensures var g := Classify(t, fileName).groups;
      && (i in g.g1 ==> i !in g.g2 && i !in g.g3 && i !in g.g4)
      && (i in g.g2 ==> i !in g.g3 && i !in g.g4)
      && (i in g.g3 ==> i !in g.g4)
  {
    if ProgressiveFile(fileName) {
      ProgressiveTakesAll(t, fileName);
    } else {
      GroupMembers(t, fileName, i);
      if i < |t.rows| && GradeCode(GradeCell(t, i)).Some? {
        GradeSetsDisjoint(GradeCode(GradeCell(t, i)).value);
      }
    }
  }

  /** The rows left out of every group are exactly those whose score is not
      a number, and the passing rows whose grade code is in neither set. */
  lemma Unplaced(t: Table, fileName: string, i: nat)
    requires Shaped(t) && HasColumns(t) && !ProgressiveFile(fileName)
    requires Classify(t, fileName).Grouped? && i < |t.rows|
    ensures var g := Classify(t, fileName).groups;
      (i !in g.g1 && i !in g.g2 && i !in g.g3 && i !in g.g4) <==>
        || Score(ScoreCell(t, i)).None?
        || (Passing(ScoreCell(t, i)) && !GradeIn(GradeCell(t, i), LowerGrades) && !GradeIn(GradeCell(t, i), UpperGrades))
  {
    GroupMembers(t, fileName, i);
  }

  /** The uncaught error: with both columns present and a file that is not
      progressive, the classifier fails exactly when the passing rows hold a
      numeric grade and no textual one. */
  lemma GradeRefusal(t: Table, fileName: string)
    requires Shaped(t) && HasColumns(t)
    ensures Classify(t, fileName) == GradeNotText <==>
      && !ProgressiveFile(fileName)
      && GradeRefused(t, ColumnIndex(t.header, ScoreColumn).value, ColumnIndex(t.header, GradeColumn).value)
  {
  }

  /** A row whose score was the "NP" sentinel before normalisation fails:
      it lands in grupo_2, the participation certificates. */
  lemma NotPresentedParticipates(p: Table, fileName: string, i: nat)
    requires Shaped(p) && HasColumns(p) && !ProgressiveFile(fileName) && i < |p.rows|
    requires IsNotPresented(p.rows[i][ColumnIndex(p.header, ScoreColumn).value])
    requires Classify(FixScores(p), fileName).Grouped?
    ensures i in Classify(FixScores(p), fileName).groups.g2
  {
    var t := FixScores(p);
    var ks := ColumnIndex(p.header, ScoreColumn).value;
    assert t.rows[i][ks] == ZeroScore;
    GroupMembers(t, fileName, i);
  }

  /** The pass mark is inclusive: a numeric score passes exactly when it
      is at least 13 and fails exactly when it is below, so 13 itself
      passes, whatever text the cell shows. */
  lemma PassMarkInclusive(v: real, shown: string)
    ensures Passing(Num(v, shown)) <==> v >= 13.0
    ensures Failing(Num(v, shown)) <==> v < 13.0
  {
  }

  /** The grade code is read case- and space-insensitively: a passing row
      whose grade reads "2p" once lower-cased and stripped (" 2P ", say)
      belongs in grupo_3 and not in grupo_4. */
  lemma LooseGradeIsLower(g: string)
    requires Strip(Lower(g)) == "2p"
    ensures GradeIn(Str(g), LowerGrades) && !GradeIn(Str(g), UpperGrades)
  {
    assert LowerGrades[1] == "2p";
    GradeSetsDisjoint("2p");
  }

  /** A numeral with a point reads as its whole part plus its fraction,
      with either sign; either part may be empty, not both. */
  lemma NumeralOfFraction(whole: string, frac: string)
    requires AllDigits(whole) && AllDigits(frac) && |whole| + |frac| > 0
    ensures UnsignedNumeral(whole + "." + frac) == Some(FractionValue(whole, frac))
    ensures Numeral(whole + "." + frac) == Some(FractionValue(whole, frac))
  {
    UnsignedFraction(whole, frac);
    UnsignedStart(whole, frac);
  }

  /** The same numeral behind a sign: "-" negates it, "+" keeps it. */
  lemma SignedFraction(whole: string, frac: string)
    requires AllDigits(whole) && AllDigits(frac) && |whole| + |frac| > 0
    ensures Numeral("-" + (whole + "." + frac)) == Some(-FractionValue(whole, frac))
    ensures Numeral("+" + (whole + "." + frac)) == Some(FractionValue(whole, frac))
  {
    SignOf(whole, frac, '-');
    SignOf(whole, frac, '+');
  }

  /** A sign in front of such a numeral negates it or keeps it. */
  lemma SignOf(whole: string, frac: string, sign: char)
    requires AllDigits(whole) && AllDigits(frac) && |whole| + |frac| > 0
    requires sign == '+' || sign == '-'
    ensures Numeral([sign] + (whole + "." + frac)) ==
      Some(if sign == '-' then -FractionValue(whole, frac) else FractionValue(whole, frac))
  {
    var s := whole + "." + frac;
    UnsignedFraction(whole, frac);
    assert ([sign] + s)[1..] == s;
  }

  /** A numeral with a point starts with a digit or with the point. */
  lemma UnsignedStart(whole: string, frac: string)
    requires AllDigits(whole)
    ensures var s := whole + "." + frac; s[0] != '+' && s[0] != '-'
  {
    var s := whole + "." + frac;
    if whole != [] {
      assert s[0] == whole[0];
    } else {
      assert s[0] == '.';
    }
  }

  lemma UnsignedFraction(whole: string, frac: string)
    requires AllDigits(whole) && AllDigits(frac) && |whole| + |frac| > 0
    ensures UnsignedNumeral(whole + "." + frac) == Some(FractionValue(whole, frac))
  {
    var s := whole + "." + frac;
    PointAfter(whole, frac);
    assert s[..|whole|] == whole && s[|whole| + 1..] == frac;
  }

  /** The first point of a numeral is the one after its whole part. */
  lemma PointAfter(whole: string, frac: string)
    requires AllDigits(whole)
    ensures Find(whole + "." + frac, '.') == Some(|whole|)
  {
    var s := whole + "." + frac;
    assert s[|whole|] == '.';
  }

  /** A textual score padded with the parser's whitespace reads as the
      numeral inside. */
  lemma PaddedScore(a: string, m: string, b: string)
    requires forall i :: 0 <= i < |a| ==> ParserSpace(a[i])
    requires forall i :: 0 <= i < |b| ==> ParserSpace(b[i])
    requires NoSpace(m)
    ensures Score(Str(a + m + b)) == Numeral(m)
  {
    var s := a + m + b;
    StripPadded(a, m, b);
    forall i | 0 <= i < |s| && IsSpace(s[i]) ensures ParserSpace(s[i]) {
      if i < |a| {
        assert s[i] == a[i];
      } else if i >= |a| + |m| {
        assert s[i] == b[i - |a| - |m|];
      } else {
        assert false;
      }
    }
  }

  /** A textual score holding whitespace the parser does not skip (a
      no-break space, say) is NaN, and its row joins no score group. */
  lemma ForeignSpaceScore(s: string, i: nat)
    requires i < |s| && IsSpace(s[i]) && !ParserSpace(s[i])
    ensures Score(Str(s)).None?
    ensures !Failing(Str(s)) && !Passing(Str(s))
  {
  }
}
