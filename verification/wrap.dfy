/** The greedy word wrap, `wrap_text_to_width` (app.py:223-246): the text's
    words are packed into lines, a word at a time, as long as the measured
    line fits the width. The measure (`canvas.stringWidth` for the chosen
    font and size) is a parameter. */
module Wrap {
  import opened Text

  /** The millimetre-to-point factor the program uses. */
  const PointsPerMm: real := 2.83465

  /** The greedy packing, from the words not yet read and the words of the
      open line, into the words of each emitted line. A word that does not
      fit closes the open line and opens the next; a word that does not fit
      on an empty line becomes a line of its own. */
  function Greedy(words: seq<string>, current: seq<string>, w: string -> real, budget: real): (gs: seq<seq<string>>)
    ensures |gs| <= |words| + (if current == [] then 0 else 1)
    decreases |words|
  {
    if words == [] then
      if current == [] then [] else [current]
    else
      var test := current + [words[0]];
      if w(JoinWords(test)) <= budget then Greedy(words[1..], test, w, budget)
      else if current != [] then [current] + Greedy(words[1..], [words[0]], w, budget)
      else [[words[0]]] + Greedy(words[1..], [], w, budget)
  }

  /** The words of each line of `text`, wrapped to `maxWidthMm` millimetres. */
  function Wrap(text: string, w: string -> real, maxWidthMm: real): seq<seq<string>> {
    Greedy(Words(text), [], w, maxWidthMm * PointsPerMm)
  }

  /** Each line as its words joined by single spaces. */
  function JoinAll(groups: seq<seq<string>>): (lines: seq<string>)
    ensures |lines| == |groups| && forall k :: 0 <= k < |groups| ==> lines[k] == JoinWords(groups[k])
  {
    if groups == [] then [] else [JoinWords(groups[0])] + JoinAll(groups[1..])
  }

  /** The lines `wrap_text_to_width` returns: never more than the text has
      words. */
  function WrapText(text: string, w: string -> real, maxWidthMm: real): (lines: seq<string>)
    ensures |lines| <= |Words(text)|
  {
    JoinAll(Wrap(text, w, maxWidthMm))
  }

  function Flatten(groups: seq<seq<string>>): seq<string> {
    if groups == [] then [] else groups[0] + Flatten(groups[1..])
  }

  predicate Fits(line: seq<string>, w: string -> real, budget: real) {
    w(JoinWords(line)) <= budget
  }

  /** Why a line ended before `next`: the next word did not fit after it, or
      the line is one word too wide on its own. */
  predicate Broken(line: seq<string>, next: seq<string>, w: string -> real, budget: real) {
    next != [] && (!Fits(line + [next[0]], w, budget) || (|line| == 1 && !Fits(line, w, budget)))
  }

  // ------------------------------------------------------------- the loop

  /** app.py:223-246, the loop over the words with its two accumulators. */
  method WrapTextToWidth(text: string, w: string -> real, maxWidthMm: real) returns (lines: seq<string>)
    ensures lines == WrapText(text, w, maxWidthMm)
  {
    var budget := maxWidthMm * PointsPerMm;
    var words := Words(text);
    lines := [];
    var current: seq<string> := [];
    ghost var all := JoinAll(Greedy(words, [], w, budget));
    assert words[0..] == words;
    for i := 0 to |words|
      invariant lines + JoinAll(Greedy(words[i..], current, w, budget)) == all
    {
      var word := words[i];
      var test := current + [word];
      LoopStep(lines, words, i, current, w, budget);
      if w(JoinWords(test)) <= budget {
        current := test;
      } else if current != [] {
        lines := lines + [JoinWords(current)];
        current := [word];
      } else {
        lines := lines + [word];
      }
    }
    assert words[|words|..] == [];
    if current != [] {
      assert JoinAll([current]) == [JoinWords(current)];
      lines := lines + [JoinWords(current)];
    }
  }

  /** One turn of the loop, after the lines already emitted. */
  lemma LoopStep(lines: seq<string>, words: seq<string>, i: nat, current: seq<string>, w: string -> real, budget: real)
    requires i < |words|
    ensures var test := current + [words[i]];
      var rest := words[i + 1..];
      lines + JoinAll(Greedy(words[i..], current, w, budget)) ==
        if w(JoinWords(test)) <= budget then lines + JoinAll(Greedy(rest, test, w, budget))
        else if current != [] then lines + [JoinWords(current)] + JoinAll(Greedy(rest, [words[i]], w, budget))
        else lines + [words[i]] + JoinAll(Greedy(rest, [], w, budget))
  {
    GreedyStep(words, i, current, w, budget);
    var test := current + [words[i]];
    var rest := words[i + 1..];
    if w(JoinWords(test)) > budget {
      if current != [] {
        AppendAssoc(lines, [JoinWords(current)], JoinAll(Greedy(rest, [words[i]], w, budget)));
      } else {
        AppendAssoc(lines, [words[i]], JoinAll(Greedy(rest, [], w, budget)));
      }
    }
  }

  lemma AppendAssoc<T>(a: seq<T>, b: seq<T>, c: seq<T>)
    ensures a + (b + c) == a + b + c
  {
  }

  /** One turn of the loop in terms of the lines still to come. */
  lemma GreedyStep(words: seq<string>, i: nat, current: seq<string>, w: string -> real, budget: real)
    requires i < |words|
    ensures var test := current + [words[i]];
      var rest := words[i + 1..];
      JoinAll(Greedy(words[i..], current, w, budget)) ==
        if w(JoinWords(test)) <= budget then JoinAll(Greedy(rest, test, w, budget))
        else if current != [] then [JoinWords(current)] + JoinAll(Greedy(rest, [words[i]], w, budget))
        else [words[i]] + JoinAll(Greedy(rest, [], w, budget))
  {
    var test := current + [words[i]];
    var rest := words[i + 1..];
    assert words[i..][0] == words[i] && words[i..][1..] == rest;
    if w(JoinWords(test)) > budget {
      var next := if current != [] then [words[i]] else [];
      var first := if current != [] then current else [words[i]];
      var tail := Greedy(rest, next, w, budget);
      assert Greedy(words[i..], current, w, budget) == [first] + tail;
      assert ([first] + tail)[1..] == tail;
      assert JoinWords([words[i]]) == words[i];
    }
  }

  // ------------------------------------------------ properties of Greedy

  lemma {:induction false} GreedyKeepsWords(words: seq<string>, current: seq<string>, w: string -> real, budget: real)
    ensures Flatten(Greedy(words, current, w, budget)) == current + words
    decreases |words|
  {
    if words == [] {
      if current != [] {
        assert Flatten([current]) == current + Flatten([current][1..]);
      }
    } else {
      var word, rest := words[0], words[1..];
      assert words == [word] + rest;
      var test := current + [word];
      if w(JoinWords(test)) <= budget {
        GreedyKeepsWords(rest, test, w, budget);
      } else if current != [] {
        var tail := Greedy(rest, [word], w, budget);
        assert ([current] + tail)[1..] == tail;
        GreedyKeepsWords(rest, [word], w, budget);
      } else {
        var tail := Greedy(rest, [], w, budget);
        assert ([[word]] + tail)[1..] == tail;
        GreedyKeepsWords(rest, [], w, budget);
      }
    }
  }

  predicate NoEmptyLine(gs: seq<seq<string>>) {
    forall k :: 0 <= k < |gs| ==> gs[k] != []
  }

  /** Every line of two or more words fits the budget. */
  predicate WideOnlyAlone(gs: seq<seq<string>>, w: string -> real, budget: real) {
    forall k :: 0 <= k < |gs| && |gs[k]| >= 2 ==> Fits(gs[k], w, budget)
  }

  predicate BrokenLines(gs: seq<seq<string>>, w: string -> real, budget: real) {
    forall k :: 0 <= k < |gs| - 1 ==> Broken(gs[k], gs[k + 1], w, budget)
  }

  lemma {:induction false} GreedyNoEmptyLine(words: seq<string>, current: seq<string>, w: string -> real, budget: real)
    ensures NoEmptyLine(Greedy(words, current, w, budget))
    decreases |words|
  {
    var gs := Greedy(words, current, w, budget);
    if words != [] {
      var word, rest := words[0], words[1..];
      var test := current + [word];
      if w(JoinWords(test)) <= budget {
        assert gs == Greedy(rest, test, w, budget);
        GreedyNoEmptyLine(rest, test, w, budget);
      } else if current != [] {
        var tail := Greedy(rest, [word], w, budget);
        assert gs == [current] + tail;
        GreedyNoEmptyLine(rest, [word], w, budget);
        forall k | 0 < k < |gs| ensures gs[k] != [] {
          assert gs[k] == tail[k - 1];
        }
      } else {
        var tail := Greedy(rest, [], w, budget);
        assert gs == [[word]] + tail;
        GreedyNoEmptyLine(rest, [], w, budget);
        forall k | 0 < k < |gs| ensures gs[k] != [] {
          assert gs[k] == tail[k - 1];
        }
      }
    }
  }

  lemma {:induction false} GreedyFits(words: seq<string>, current: seq<string>, w: string -> real, budget: real)
    requires |current| >= 2 ==> Fits(current, w, budget)
    ensures WideOnlyAlone(Greedy(words, current, w, budget), w, budget)
    decreases |words|
  {
    var gs := Greedy(words, current, w, budget);
    if words != [] {
      var word, rest := words[0], words[1..];
      var test := current + [word];
      if w(JoinWords(test)) <= budget {
        assert gs == Greedy(rest, test, w, budget);
        GreedyFits(rest, test, w, budget);
      } else if current != [] {
        var tail := Greedy(rest, [word], w, budget);
        assert gs == [current] + tail;
        GreedyFits(rest, [word], w, budget);
        forall k | 0 <= k < |gs| && |gs[k]| >= 2 ensures Fits(gs[k], w, budget) {
          if k > 0 { assert gs[k] == tail[k - 1]; }
        }
      } else {
        var tail := Greedy(rest, [], w, budget);
        assert gs == [[word]] + tail;
        GreedyFits(rest, [], w, budget);
        forall k | 0 <= k < |gs| && |gs[k]| >= 2 ensures Fits(gs[k], w, budget) {
          assert k > 0;
          assert gs[k] == tail[k - 1];
        }
      }
    }
  }

  /** The open line is the start of the first emitted line. */
  lemma {:induction false} GreedyStartsWith(words: seq<string>, current: seq<string>, w: string -> real, budget: real)
    requires current != []
    ensures var gs := Greedy(words, current, w, budget);
      gs != [] && gs[0] != [] && gs[0][0] == current[0]
    decreases |words|
  {
    if words != [] {
      var test := current + [words[0]];
      if w(JoinWords(test)) <= budget {
        GreedyStartsWith(words[1..], test, w, budget);
      }
    }
  }

  lemma {:induction false} GreedyBreaks(words: seq<string>, current: seq<string>, w: string -> real, budget: real)
    ensures BrokenLines(Greedy(words, current, w, budget), w, budget)
    decreases |words|
  {
    var gs := Greedy(words, current, w, budget);
    if words != [] {
      var word, rest := words[0], words[1..];
      var test := current + [word];
      if w(JoinWords(test)) <= budget {
        assert gs == Greedy(rest, test, w, budget);
        GreedyBreaks(rest, test, w, budget);
      } else if current != [] {
        var tail := Greedy(rest, [word], w, budget);
        assert gs == [current] + tail;
        GreedyBreaks(rest, [word], w, budget);
        GreedyStartsWith(rest, [word], w, budget);
        forall k | 0 <= k < |gs| - 1 ensures Broken(gs[k], gs[k + 1], w, budget) {
          if k > 0 {
            assert gs[k] == tail[k - 1] && gs[k + 1] == tail[k];
          } else {
            assert gs[0] == current && gs[1] == tail[0];
          }
        }
      } else {
        var tail := Greedy(rest, [], w, budget);
        assert gs == [[word]] + tail;
        GreedyBreaks(rest, [], w, budget);
        GreedyNoEmptyLine(rest, [], w, budget);
        forall k | 0 <= k < |gs| - 1 ensures Broken(gs[k], gs[k + 1], w, budget) {
          if k > 0 {
            assert gs[k] == tail[k - 1] && gs[k + 1] == tail[k];
          } else {
            assert gs[0] == [word] && gs[1] == tail[0];
            assert JoinWords([word]) == word;
          }
        }
      }
    }
  }

  /** Joining the joined lines with single spaces is joining all the words. */
  lemma {:induction false} JoinLines(groups: seq<seq<string>>)
    requires NoEmptyLine(groups)
    ensures JoinWords(JoinAll(groups)) == JoinWords(Flatten(groups))
  {
    if |groups| == 1 {
      assert groups[1..] == [];
      assert Flatten(groups) == groups[0] + [];
      assert groups[0] + [] == groups[0];
    } else if |groups| > 1 {
      var rest := groups[1..];
      assert forall k :: 0 <= k < |rest| ==> rest[k] == groups[k + 1];
      JoinLines(rest);
      assert JoinAll(groups)[1..] == JoinAll(rest);
      assert Flatten(rest) != [] by {
        assert Flatten(rest) == rest[0] + Flatten(rest[1..]);
      }
      JoinAppend(groups[0], Flatten(rest));
    }
  }

  lemma {:induction false} FlattenParts(groups: seq<seq<string>>, k: nat)
    requires k < |groups|
    ensures forall x :: x in groups[k] ==> x in Flatten(groups)
  {
    if k > 0 {
      FlattenParts(groups[1..], k - 1);
    }
  }

  /** Every word the wrap packs is a word of the text. */
  lemma WrapWordsAreWords(text: string, w: string -> real, maxWidthMm: real, k: nat)
    requires k < |Wrap(text, w, maxWidthMm)|
    ensures var g := Wrap(text, w, maxWidthMm)[k];
      g != [] && forall j :: 0 <= j < |g| ==> IsWord(g[j])
  {
    var words := Words(text);
    var gs := Wrap(text, w, maxWidthMm);
    GreedyKeepsWords(words, [], w, maxWidthMm * PointsPerMm);
    GreedyNoEmptyLine(words, [], w, maxWidthMm * PointsPerMm);
    FlattenParts(gs, k);
    assert Flatten(gs) == words;
    forall j | 0 <= j < |gs[k]| ensures IsWord(gs[k][j]) {
      assert gs[k][j] in gs[k];
      var i :| 0 <= i < |words| && words[i] == gs[k][j];
    }
  }

  // ---------------------------------------------- properties of the lines

  /** Splitting a line gives back the words it was packed from. */
  lemma WrapLineWords(text: string, w: string -> real, maxWidthMm: real)
    ensures var lines := WrapText(text, w, maxWidthMm);
      forall k :: 0 <= k < |lines| ==> Words(lines[k]) == Wrap(text, w, maxWidthMm)[k]
  {
    var gs := Wrap(text, w, maxWidthMm);
    forall k | 0 <= k < |gs|
      ensures Words(JoinWords(gs[k])) == gs[k]
    {
      WrapWordsAreWords(text, w, maxWidthMm, k);
      WordsOfJoin(gs[k]);
    }
  }

  /** Splitting the lines, joined by spaces, gives back the words of the
      text in order. */
  lemma WrapKeepsWords(text: string, w: string -> real, maxWidthMm: real)
    ensures Words(JoinWords(WrapText(text, w, maxWidthMm))) == Words(text)
  {
    var words := Words(text);
    var gs := Wrap(text, w, maxWidthMm);
    GreedyKeepsWords(words, [], w, maxWidthMm * PointsPerMm);
    GreedyNoEmptyLine(words, [], w, maxWidthMm * PointsPerMm);
    JoinLines(gs);
    assert Flatten(gs) == words;
    WordsOfJoin(words);
  }

  /** No line is empty, and there are no lines exactly when the text is
      blank. */
  lemma WrapLinesNonEmpty(text: string, w: string -> real, maxWidthMm: real)
    ensures var lines := WrapText(text, w, maxWidthMm);
      && (forall k :: 0 <= k < |lines| ==> lines[k] != [])
      && (lines == [] <==> AllSpace(text))
  {
    var words := Words(text);
    var gs := Wrap(text, w, maxWidthMm);
    forall k | 0 <= k < |gs| ensures JoinWords(gs[k]) != [] {
      WrapWordsAreWords(text, w, maxWidthMm, k);
      JoinNonEmpty(gs[k]);
    }
    if words != [] {
      GreedyKeepsWords(words, [], w, maxWidthMm * PointsPerMm);
    }
  }

  /** Only a line of a single word can be wider than the budget. */
  lemma WrapWidths(text: string, w: string -> real, maxWidthMm: real)
    ensures var lines := WrapText(text, w, maxWidthMm);
      forall k :: 0 <= k < |lines| && w(lines[k]) > maxWidthMm * PointsPerMm ==> |Words(lines[k])| == 1
  {
    var gs := Wrap(text, w, maxWidthMm);
    GreedyFits(Words(text), [], w, maxWidthMm * PointsPerMm);
    WrapLineWords(text, w, maxWidthMm);
    forall k | 0 <= k < |gs| ensures gs[k] != [] {
      WrapWordsAreWords(text, w, maxWidthMm, k);
    }
  }

  /** The wrap is greedy: a line ends before the next line's first word only
      because that word did not fit after it, or because the line is a
      single word already too wide. */
  lemma WrapGreedy(text: string, w: string -> real, maxWidthMm: real)
    ensures BrokenLines(Wrap(text, w, maxWidthMm), w, maxWidthMm * PointsPerMm)
  {
    GreedyBreaks(Words(text), [], w, maxWidthMm * PointsPerMm);
  }
}
