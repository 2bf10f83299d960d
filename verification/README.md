# Certificate generator — a verified model of its core

The generator takes a course roster exported as a spreadsheet and produces
one PDF certificate per student, packed into a single ZIP archive. This
project models in Dafny the part of `app.py` that decides what ends up in
that archive:

- **roster normalisation** (`procesar_excel_inicial`): promote the twelfth
  sheet row to the header, keep columns A–I and O–T of a wide sheet,
  lower-case the labels, turn the `NP` ("not presented") score into 0,
  build the display name from `nombre`, `paterno` and `materno`, and place
  it right after `nro`;
- **classification** (`clasificar_estudiantes_por_nota`): a file whose
  name starts with P puts every student in the progressive group;
  otherwise a score below 13 gives a participation certificate, and a
  score of at least 13 gives an approval certificate whose template
  depends on the grade (1P–3P or 4P–5S);
- **greedy word wrap** (`wrap_text_to_width`) and **text layout**
  (`draw_multiline_text`): which lines are drawn, where, and how high the
  block is;
- **one certificate** (`generar_certificados_grupo`): the texts read from
  a row, the fields drawn for each template, the page size, the Spanish
  date of `mes_en_espanol`, the watermark decision and its overlay, and the
  name of the archive entry;
- **the run** (`generar_todos_certificados`): the `Constancias/` folder
  entry followed by the certificates of the four groups in order, and the
  progress reported after each certificate; and the name the archive is
  downloaded under.

The modules follow the program: `Text` (the Python string operations the
code relies on), `Roster`, `Classify`, `Wrap`, `Styles` (the fixed style
table), `Layout`, `Certificate` and `Archive`. The archive being filled is
the class `Archive.ZipArchive`, whose methods append entries and progress
values. PDF drawing, watermark stamping, text measuring and the clock are
parameters of the model (`Certificate.Env`), so every property holds for
any renderer, any font metrics and any day.

## Model

| member | source | states |
|---|---|---|
| Text.Strip | app.py:208-209 | `str.strip()`: the result is the slice of the input between a leading and a trailing run of whitespace; it is blank exactly when the input is all whitespace, and otherwise starts and ends with a non-space |
| Text.StripPadded | app.py:208-209 | whitespace around a text that starts and ends with a non-space is exactly what stripping removes |
| Text.StripIdempotent | app.py:327-328 | stripping twice is stripping once |
| Text.Upper | app.py:327-328 | `str.upper()`: never shorter than the input, and without an `ß` the same length with each character upper-cased in place |
| Text.UpperAppend | app.py:327-328 | upper-casing works character by character: the upper-cased concatenation is the concatenation of the upper-cased parts |
| Text.SharpUpper | app.py:327-328 | an `ß` shows up as `S` in the upper-cased text |
| Text.Lower | app.py:171 | `str.lower()` maps each character and keeps the length |
| Text.Words | app.py:225 | `str.split()`: every piece is a non-empty run without whitespace, and there are none exactly when the text is all whitespace |
| Text.WordsOfJoin | app.py:231 | splitting `' '.join(words)` gives the words back |
| Text.WordsOfStrip | app.py:327-328 | stripping a text does not change its words |
| Text.ReplaceSpaces | app.py:380 | `replace(' ', '_')`: each space becomes `_`, every other character is kept, so no space is left |
| Text.Take | app.py:380 | `curso[0:11]`: a prefix of the course, eleven characters long or the whole course when it is shorter |
| Text.ZeroPad | app.py:333 | `{n:03}`: at least the requested width, only digits, and it reads back as `n` |
| Text.Decimal | app.py:63 | the decimal digits of a number read back as that number, without a leading zero |
| Roster.ColumnIndex | app.py:213 | `list.index`: absent exactly when the label is missing, otherwise the first position holding it |
| Roster.SourceColumns | app.py:195-198 | a sheet wider than 19 columns keeps columns 0–8 and 14–19; a narrower one keeps all of its columns |
| Roster.Promote | app.py:185-200 | the header is the lower-cased labels of the promoted row, read from the kept columns; each later sheet row becomes one table row of the kept cells |
| Roster.NotPresentedSpelling | app.py:205 | a text cell is the `NP` sentinel exactly when, once stripped, it is the two letters n and p in any case |
| Roster.FixScores | app.py:202-206 | same header and rows, except that an `NP` cell of the `nota final` column becomes the number 0 |
| Roster.NameColumns | app.py:208-209 | success exactly when `nombre`, `paterno` and `materno` are all present and none holds numbers only, giving their first positions; otherwise the failure names the first of them, in that order, that is missing or holds numbers only |
| Roster.DisplayName | app.py:208-209 | blank (NaN) exactly when a part is a number; otherwise the three stripped parts joined by single spaces |
| Roster.DisplayNameWords | app.py:208-209 | the words of a display name are those of the three parts, in order |
| Roster.DisplayNames | app.py:208-209 | one display name per row, built from that row's three name cells |
| Roster.SetColumn | app.py:208 | after assigning a column, its label is found, it holds the given values row by row, and every other column is unchanged |
| Roster.DropKeepsOthers | app.py:211-212 | removing one label keeps every other label present |
| Roster.MoveAfterNro | app.py:211-215 | the reordered table has `nro` at the same place and the display name right after it, and taking the display name out again gives the table with it taken out where it was |
| Roster.InsertDisplayName | app.py:208-215 | without `nro` the table is refused; with it, the result has the display name right after `nro`, one per row, and is otherwise the input table without its display-name column |
| Roster.NormalizeRoster | app.py:178-220 | a sheet too short for the header row is refused; otherwise the score-fixed table is refused with the first missing or non-text name column, or for a missing `nro`, and is otherwise normalised as above |
| Classify.Find | app.py:163 | the first position of a character, absent exactly when it does not occur |
| Classify.NumeralOfDecimal | app.py:163 | `to_numeric` reads a decimal numeral, with or without a sign, as its value |
| Classify.NumeralOfFraction | app.py:163 | for any digits before and after a point, not both empty, the numeral reads as the whole part plus the fraction over the matching power of ten |
| Classify.SignedFraction | app.py:163 | the same numeral after `-` reads as its negation and after `+` as itself |
| Classify.Score | app.py:163 | `to_numeric(errors='coerce')` on a cell: blank is NaN, a number stays, and a text that converts holds no whitespace other than the ASCII space and tab to carriage return |
| Classify.PaddedScore | app.py:163 | a text score is the numeral inside, whatever ASCII whitespace pads it |
| Classify.ForeignSpaceScore | app.py:163-169 | a text score holding any other whitespace (a no-break space, say) is NaN, so the row neither fails nor passes |
| Classify.RowsWhere | app.py:166-173 | the row positions a boolean mask selects, in increasing order |
| Classify.Classify | app.py:138-175 | a missing `nota final` column, then a missing `grado` column, leaves the roster unclassified, and only those do |
| Classify.ProgressiveFileInitial | app.py:155 | a file is progressive exactly when its name starts with p or P |
| Classify.ProgressiveTakesAll | app.py:157-159 | a progressive file puts every row in grupo_1, in order, and leaves the other groups empty |
| Classify.GroupMembers | app.py:162-173 | otherwise grupo_1 is empty, a row is in grupo_2 exactly when its score is below 13, in grupo_3 exactly when its score is at least 13 and its grade is 1P–3P, and in grupo_4 exactly when its score is at least 13 and its grade is 4P–5S |
| Classify.GroupsOrdered | app.py:166-173 | every group lists its rows in increasing order, as the filtered frames keep roster order |
| Classify.GradeSetsDisjoint | app.py:171-173 | no grade code is in both grade lists |
| Classify.GroupsDisjoint | app.py:157-173 | no row is in two groups |
| Classify.Unplaced | app.py:162-173 | a row is in no group exactly when its score does not convert or it passes with a grade in neither list |
| Classify.GradeRefusal | app.py:171 | the classifier stops on the grade column exactly when the file is not progressive and `.str` refuses that column |
| Classify.NotPresentedParticipates | app.py:203-206 | a student marked `NP` ends in grupo_2 |
| Classify.PassMarkInclusive | app.py:166-169 | a numeric score passes exactly when it is at least 13 and fails exactly when it is below 13, so 13 itself passes |
| Classify.LooseGradeIsLower | app.py:171-173 | a grade that lower-cases and strips to `2p` is in the 1P–3P list and not in the 4P–5S list |
| Wrap.Greedy | app.py:229-241 | the greedy pass yields at most one group per word, plus one for a pending line |
| Wrap.WrapText | app.py:223-246 | never more lines than words |
| Wrap.WrapTextToWidth | app.py:223-246 | the loop returns the greedy wrapping of the text's words |
| Wrap.GreedyStep | app.py:229-241 | one word either joins the current line when the joined text fits, or closes a non-empty current line and starts a new one, or stands alone when nothing is pending |
| Wrap.WrapKeepsWords | app.py:223-246 | joining the lines gives back exactly the words of the text, in order |
| Wrap.WrapLineWords | app.py:231-244 | each drawn line is its group of words joined by single spaces |
| Wrap.WrapLinesNonEmpty | app.py:237-244 | no line is empty, and there are no lines exactly when the text is blank |
| Wrap.WrapWidths | app.py:234-241 | a line wider than the limit is a single word |
| Wrap.WrapGreedy | app.py:234-239 | each line break is forced: the next line's first word would not have fitted on the line before |
| Styles.StyleOf | app.py:420-580 | every template styles the name, course, date and number; only `fondo_1` styles the hours; exactly the name and course wrap |
| Styles.PageSize | app.py:318-323 | portrait A4 for `fondo_2`, landscape A4 otherwise |
| Styles.CentredFields | app.py:278-292 | which texts are centred on each template |
| Styles.ApprovalLayoutsAgree | app.py:504-579 | `fondo_3` and `fondo_4` share one layout |
| Layout.LineX | app.py:274-294 | a centred line is centred on the page; any other starts at the style's x |
| Layout.DrawText | app.py:273-297 | without a width, one line of the whole text with the font size as height; with a width, one line per wrapped line and a height of one line height stacked once per line (that many times the line height, by `Layout.StackedLines`); every line at its x and on its baseline |
| Layout.StackedLines | app.py:285-297 | stacking `n` line heights gives `n` times the line height |
| Layout.LineSpacing | app.py:285-289 | the first line is on the style's y and each next one exactly one line height lower |
| Layout.BlockHeight | app.py:285-297 | the returned height reaches from the first baseline to one line height below the last |
| Layout.BlankDrawsNothing | app.py:284-297 | a blank wrapped text draws nothing and has height 0 |
| Certificate.MesEnEspanol | app.py:45-63 | `%d de <mes> del %Y`: two digits reading back as the day, ` de `, the Spanish month, ` del `, and digits reading back as the year |
| Certificate.MonthAlwaysTranslated | app.py:45-62 | every English month is in the table, so the English fallback is never used |
| Certificate.SpanishMonthInjective | app.py:46-59 | distinct months get distinct Spanish names |
| Certificate.MesEnEspanolInjective | app.py:45-63 | distinct dates give distinct texts |
| Certificate.GeneratedNumberReadsBack | app.py:333 | `GEN-` followed by at least three digits that read back as the position plus one |
| Certificate.GeneratedNumbersDistinct | app.py:333 | distinct positions get distinct generated numbers |
| Certificate.CertificateNumber | app.py:330-334 | the stripped `numeración` cell when present and not blank, the generated number otherwise |
| Certificate.ReadRow | app.py:325-340 | a row fails exactly when there is no course column; otherwise the name and course are the stripped, upper-cased texts of their cells, the number is the certificate number, and the hours are the text of the `horas_progresivo` cell on `fondo_1` when it is present and not blank, and empty otherwise |
| Certificate.NumericNamePartPrintsNan | app.py:208-209 | a row whose name has a numeric part is printed as `NAN` |
| Certificate.DrawnFields | app.py:356-365 | name, course and date first; the hours exactly on `fondo_1` when present; the number exactly when the template is not `fondo_2`; nothing else, so three to five fields; hours never after the number; each with a style |
| Certificate.PageFields | app.py:356-365 | drawing the fields one after another gives the name, course and date blocks, then the hours block when drawn, then the number block when drawn |
| Certificate.CertificatePage | app.py:317-365 | the page has the template's size and is landscape exactly when the template is not `fondo_2`; its draws are, in the order of `DrawnFields`, the `DrawText` lines of each field's text in that field's style |
| Certificate.WatermarkApplies | app.py:306-312 | the watermark is applied exactly when the second letter of the file name is i or I, the template is not `fondo_2` and the watermark file exists |
| Certificate.OverlayFor | app.py:78-92 | the landscape overlay is chosen exactly for a page wider than high when its file exists |
| Certificate.OverlayOfTemplate | app.py:78-92 | the landscape overlay is used exactly for the landscape templates when its file exists |
| Certificate.EntryName | app.py:379-382 | every entry name is a PDF name, and a `fondo_2` name lies in `Constancias/` |
| Certificate.EntryNameShape | app.py:379-382 | the entry of any upper-cased name is a PDF name and lies in `Constancias/` exactly for `fondo_2` (its composition is stated by `RowEntryShape`) |
| Certificate.RowEntry | app.py:324-401 | a row fails for a missing course column exactly when that column is missing, and otherwise only when drawing fails; a produced entry has a PDF name |
| Certificate.RowEntryFails | app.py:324-401 | a row produces no entry exactly when the course column is missing or drawing its page fails |
| Certificate.RowEntryShape | app.py:327-384 | a produced entry is named `Constancias/` (only for `fondo_2`), then the stripped name with spaces turned into `_`, `_`, the course's first eleven characters with spaces turned into `_`, and `.pdf`; it is in the folder exactly for `fondo_2` and holds the rendered page, stamped exactly when the watermark applies |
| Certificate.TemplateDecisions | app.py:306-365 | `fondo_2` draws no number and gets no watermark, and only `fondo_1` draws hours |
| Archive.Plan | app.py:582-592 | grupo_1 to grupo_4 are visited in that order with `fondo_1` to `fondo_4` |
| Archive.RowOutcome | app.py:598-608 | each row of a group is processed with the group's template |
| Archive.GroupEntries | app.py:325-401 | a group yields at most one entry per row |
| Archive.GroupStep | app.py:325-386 | each row appends its entry, if it produced one, after those of the rows before it |
| Archive.ProgressSteps | app.py:386-390 | one progress value per certificate |
| Archive.ZipArchive.constructor | app.py:413-417 | a new archive holds only the `Constancias/` folder entry and the bar starts at 0 |
| Archive.ZipArchive.GenerateGroup | app.py:300-402 | the group's entries are appended in row order, the count is the number produced, and one progress value per certificate is reported |
| Archive.ZipArchive.RunJob | app.py:590-610 | one group appends its entries and progress values |
| Archive.RunPlan | app.py:589-610 | the archive holds the folder entry and then every group's entries in plan order, with the matching progress values |
| Archive.GenerateAll | app.py:405-621 | nothing is generated without groups or templates; otherwise the archive holds the folder entry and then the certificates of grupo_1 to grupo_4 |
| Archive.ClassifiedRunDefined | app.py:138-175 | every row a classification places can be processed by the run |
| Archive.GroupEntriesFrom | app.py:325-401 | an entry is in a group's output exactly when some row of the group produced it |
| Archive.GroupComplete | app.py:386-402 | a group yields one entry per row exactly when no row fails |
| Archive.GroupEntriesShape | app.py:379-384 | every entry of a group is a PDF name, in `Constancias/` exactly for `fondo_2` |
| Archive.RunEntries | app.py:589-610 | the run's certificates are those of grupo_1, grupo_2, grupo_3 and grupo_4 concatenated |
| Archive.RunFolder | app.py:379-384 | every certificate of the run is a PDF name, and those in `Constancias/` are exactly grupo_2's |
| Archive.ShareBounds | app.py:389-390 | each reported value lies in (0, 1] |
| Archive.ClampInactive | app.py:389-390 | the `min(…, 1.0)` never changes the value: it is the certificates so far over the total |
| Archive.ShareLess | app.py:389-390 | more students processed gives a strictly larger value |
| Archive.PlanProgressRises | app.py:389-390 | the reported values strictly increase, stay in (0, 1] and never pass the share of the rows visited |
| Archive.ProgressPerCertificate | app.py:386-390 | there is exactly one progress value per certificate in the archive |
| Archive.LastProgress | app.py:389-390 | when every row so far produced a certificate, the last value is the rows visited over the total |
| Archive.FullBar | app.py:389-390 | when every certificate is produced, the bar ends at exactly 1 |
| Archive.LastIndex | app.py:674 | the last position of a character, or -1 when it does not occur |
| Archive.Stem | app.py:674 | `os.path.splitext(...)[0]` is a prefix of the name |
| Archive.PreliminaryLetter | app.py:676 | the name is preliminary exactly when its second letter is p or P |
| Archive.StemOfName | app.py:674 | a plain name with one extension loses exactly that extension |
| Archive.ZipName | app.py:673-679 | the archive name is the stem (the name without its extension, or `CERTIFICADOS` without a name) followed by `_PRELIMINAR.zip` exactly when the stem is preliminary and by `.zip` otherwise |
| Archive.ZipNameOfUpload | app.py:673-679 | an uploaded `name.ext` is offered as `name_PRELIMINAR.zip` when preliminary and `name.zip` otherwise |
| Archive.ZipNameEdges | app.py:673-679 | without a file name the archive is `CERTIFICADOS.zip`; a name made only of a dot and an extension is its own stem, so the archive keeps it whole |
| Archive.ProgressiveUpload | app.py:306 | every upload whose name starts with `PI` is progressive and its certificates get the watermark |
| Archive.RegularUpload | app.py:306 | every upload whose name starts with `RP` is neither progressive nor watermarked |

## Left out

- The user interface: uploading, previews, messages, the progress widget and the download button. The model keeps only what they receive: the progress values and the archive name.
- Reading the spreadsheet. The model starts from decoded cells: blank, text, or a number together with the text Python prints for it.
- Duplicate column labels. Lookups use the first column with a label; pandas would return several columns.
- Numerals with an exponent, `inf` or `nan` are left out of the conversion to a number; they count as not a number.
- The `nota_final_num` column the classifier adds to the roster. Nothing reads it afterwards.
- Drawing the page, the background image and the fonts. The renderer is a parameter that returns the PDF or fails. Font choice and its fallbacks reach the model only through the measuring function.
- Merging the watermark into the PDF. The stamper is a parameter; when it fails, the PDF is kept unmarked.
- Reading the template images. Only whether all four were found is modelled.
- Temporary files and their clean-up.
- The clock. The day of the run is a parameter, and one date is used for the whole run.
- `strftime('%B')` in other locales, and `%Y` for years below 1000.
- Unicode case mapping beyond Latin-1 letters. Within Latin-1, `ß` becomes `SS`, `ÿ` becomes `Ÿ` and `µ` becomes `Μ`, as in Python.
- Floating-point rounding. Progress values, millimetre conversions and converted scores are exact reals. A text score with more digits than a double holds can round across the pass mark in pandas (`12.99999999999999999` reads as 13.0 and passes) while the model's exact value fails.
- Certificate.ReadRow: requires the display-name column. Normalisation always adds that column before any row is read.
- ZIP entries with the same name. The archive keeps every entry, duplicates included, in the order written, as the ZIP writer does.
- The preliminary-archive rule looks at the second letter of the name, as the code does. A `PX_…` upload is not preliminary. Column O–T is kept as the code does.
