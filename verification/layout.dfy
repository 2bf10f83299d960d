/** Where `draw_multiline_text` (app.py:273-297) puts a text on the page:
    the draw commands it issues and the block height it returns. The font
    chosen for the style enters only through its measure. */
module Layout {
  import opened Wrappers
  import opened Text
  import opened Wrap
  import opened Styles

  /** One `drawString(x, y, text)`, in points. */
  datatype Draw = Draw(x: real, y: real, text: string)

  /** The commands issued and the height returned. */
  datatype Block = Block(draws: seq<Draw>, height: real)

  /** The line spacing: 1.2 times the font size. */
  function LineHeight(s: Style): real {
    s.size * 1.2
  }

  /** The height of `n` lines of height `h` stacked one under the other. */
  function Stacked(n: nat, h: real): real {
    if n == 0 then 0.0 else Stacked(n - 1, h) + h
  }

  /** Stacking `n` lines is multiplying the line height by `n`. */
  lemma {:induction false} StackedLines(n: nat, h: real)
    ensures Stacked(n, h) == n as real * h
  {
    if n > 0 {
      StackedLines(n - 1, h);
      assert n as real * h == (n - 1) as real * h + h;
    }
  }

  /** The y of the `i`-th line: the style's anchor converted to points,
      less `i` line heights. */
  function Baseline(s: Style, i: nat): real {
    s.y * PointsPerMm - Stacked(i, LineHeight(s))
  }

  /** Consecutive baselines are one line height apart. */
  lemma BaselineStep(s: Style, i: nat)
    ensures Baseline(s, i) - Baseline(s, i + 1) == LineHeight(s)
  {
  }

  /** `n` line heights below the first baseline is one line height below
      the `n`-th baseline. */
  lemma LastBaseline(s: Style, n: nat)
    requires n > 0
    ensures Baseline(s, 0) - Stacked(n, LineHeight(s)) == Baseline(s, n - 1) - LineHeight(s)
  {
  }

  /** The x of a line: centred on the page for the centring anchors,
      otherwise the style's anchor converted to points. */
  function LineX(s: Style, pageWidth: real, measure: string -> real, line: string): (x: real)
    ensures Centred(s) ==> x + measure(line) / 2.0 == pageWidth / 2.0
    ensures !Centred(s) ==> x == s.x * PointsPerMm
  {
    if Centred(s) then (pageWidth - measure(line)) / 2.0 else s.x * PointsPerMm
  }

  /** app.py:273-297 without the font selection: one unwrapped line when no
      width is given, otherwise one line per wrapped line, each one line
      height below the previous. */
  function DrawText(text: string, s: Style, pageWidth: real, measure: string -> real,
                    maxWidthMm: Option<real>): (b: Block)
    ensures maxWidthMm.None? ==> b.height == s.size && |b.draws| == 1 && b.draws[0].text == text
    ensures maxWidthMm.Some? ==>
      var lines := WrapText(text, measure, maxWidthMm.value);
      && |b.draws| == |lines|
      && (forall i :: 0 <= i < |lines| ==> b.draws[i].text == lines[i])
      && b.height == Stacked(|lines|, LineHeight(s))
    ensures forall i :: 0 <= i < |b.draws| ==>
      b.draws[i].x == LineX(s, pageWidth, measure, b.draws[i].text)
    ensures forall i :: 0 <= i < |b.draws| ==> b.draws[i].y == Baseline(s, i)
  {
    if maxWidthMm.None? then
      Block([Draw(LineX(s, pageWidth, measure, text), Baseline(s, 0), text)], s.size)
    else
      var lines := WrapText(text, measure, maxWidthMm.value);
      var draws := seq(|lines|, i requires 0 <= i < |lines| =>
        Draw(LineX(s, pageWidth, measure, lines[i]), Baseline(s, i), lines[i]));
      Block(draws, Stacked(|lines|, LineHeight(s)))
  }

  /** The first line sits on the style's baseline and each next line exactly
      one line height lower. */
  lemma LineSpacing(text: string, s: Style, pageWidth: real, measure: string -> real, maxWidthMm: Option<real>)
    ensures var b := DrawText(text, s, pageWidth, measure, maxWidthMm);
      && (|b.draws| > 0 ==> b.draws[0].y == s.y * PointsPerMm)
      && forall i :: 0 <= i < |b.draws| - 1 ==> b.draws[i].y - b.draws[i + 1].y == LineHeight(s)
  {
    var b := DrawText(text, s, pageWidth, measure, maxWidthMm);
    forall i | 0 <= i < |b.draws| - 1 ensures b.draws[i].y - b.draws[i + 1].y == LineHeight(s) {
      BaselineStep(s, i);
    }
  }

  /** With a width, the returned height is the distance from the first
      baseline to one line below the last. */
  lemma BlockHeight(text: string, s: Style, pageWidth: real, measure: string -> real, width: real)
    ensures var b := DrawText(text, s, pageWidth, measure, Some(width));
      |b.draws| > 0 ==> b.draws[0].y - b.height == b.draws[|b.draws| - 1].y - LineHeight(s)
  {
    var b := DrawText(text, s, pageWidth, measure, Some(width));
    var n := |WrapText(text, measure, width)|;
    assert |b.draws| == n && b.height == Stacked(n, LineHeight(s));
    if n > 0 {
      assert b.draws[0].y == Baseline(s, 0) && b.draws[n - 1].y == Baseline(s, n - 1);
      LastBaseline(s, n);
    }
  }

  /** A blank text draws nothing when a width is given. */
  lemma BlankDrawsNothing(text: string, s: Style, pageWidth: real, measure: string -> real, width: real)
    requires AllSpace(text)
    ensures DrawText(text, s, pageWidth, measure, Some(width)) == Block([], 0.0)
  {
    WrapLinesNonEmpty(text, measure, width);
  }
}
