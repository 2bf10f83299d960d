/** The Python string operations the certificate pipeline relies on:
    `str.isspace`, `str.strip`, `str.upper`, `str.lower`, `str.split()`,
    `' '.join`, `str.replace(' ', '_')`, slicing, and the decimal rendering of
    non-negative integers (`str(n)`, `f"{n:03}"`). */
module Text {

  /** Python's `str.isspace()` for a single character. */
  predicate IsSpace(c: char) {
    || c == ' '
    || ('\t' <= c <= '\r')
    || ('\U{1C}' <= c <= '\U{1F}')
    || c == '\U{85}' || c == '\U{A0}' || c == '\U{1680}'
    || ('\U{2000}' <= c <= '\U{200A}')
    || c == '\U{2028}' || c == '\U{2029}' || c == '\U{202F}' || c == '\U{205F}' || c == '\U{3000}'
  }

  predicate NoSpace(s: string) {
    forall i :: 0 <= i < |s| ==> !IsSpace(s[i])
  }

  predicate AllSpace(s: string) {
    forall i :: 0 <= i < |s| ==> IsSpace(s[i])
  }

  /** A word as `str.split()` yields it: non-empty, no whitespace. */
  predicate IsWord(w: string) {
    w != [] && NoSpace(w)
  }

  // ---------------------------------------------------------------- strip

  /** Where the run of whitespace that starts at `k` ends. */
  function SpaceRunEnd(s: string, k: nat): (n: nat)
    requires k <= |s|
    ensures k <= n <= |s|
    ensures forall i :: k <= i < n ==> IsSpace(s[i])
    ensures n == |s| || !IsSpace(s[n])
    decreases |s| - k
  {
    if k < |s| && IsSpace(s[k]) then SpaceRunEnd(s, k + 1) else k
  }

  /** Where the run of whitespace that ends at `k` starts. */
  function SpaceRunStart(s: string, k: nat): (n: nat)
    requires k <= |s|
    ensures n <= k
    ensures forall i :: n <= i < k ==> IsSpace(s[i])
    ensures n == 0 || !IsSpace(s[n - 1])
  {
    if k > 0 && IsSpace(s[k - 1]) then SpaceRunStart(s, k - 1) else k
  }

  /** The run of whitespace from `k` ends at the first non-space from `k` on. */
  lemma SpaceRunEndAt(s: string, k: nat, m: nat)
    requires k <= m <= |s|
    requires forall i :: k <= i < m ==> IsSpace(s[i])
    requires m == |s| || !IsSpace(s[m])
    ensures SpaceRunEnd(s, k) == m
  {
  }

  /** The run of whitespace up to `k` starts after the last non-space before `k`. */
  lemma SpaceRunStartAt(s: string, k: nat, m: nat)
    requires m <= k <= |s|
    requires forall i :: m <= i < k ==> IsSpace(s[i])
    requires m == 0 || !IsSpace(s[m - 1])
    ensures SpaceRunStart(s, k) == m
  {
  }

  /** `str.lstrip()`: drops the leading whitespace and nothing else. */
  function StripStart(s: string): (r: string)
    ensures |r| <= |s| && r == s[|s| - |r|..]
    ensures AllSpace(s[..|s| - |r|])
    ensures r == [] || !IsSpace(r[0])
  {
    var n := SpaceRunEnd(s, 0);
    assert forall i :: 0 <= i < n ==> s[..n][i] == s[i];
    s[n..]
  }

  /** `str.rstrip()`: drops the trailing whitespace and nothing else. */
  function StripEnd(s: string): (r: string)
    ensures |r| <= |s| && r == s[..|r|]
    ensures AllSpace(s[|r|..])
    ensures r == [] || !IsSpace(r[|r| - 1])
  {
    var n := SpaceRunStart(s, |s|);
    assert forall i :: 0 <= i < |s| - n ==> s[n..][i] == s[n + i];
    s[..n]
  }

  /** `str.strip()`: the text between the leading and the trailing
      whitespace; it sits in `s` right after the leading whitespace, and
      only whitespace follows it. */
  function Strip(s: string): (r: string)
    ensures |r| <= |s|
    ensures r == [] || (!IsSpace(r[0]) && !IsSpace(r[|r| - 1]))
    ensures r == [] <==> AllSpace(s)
    ensures var o := |s| - |StripStart(s)|;
      && o + |r| <= |s| && r == s[o..o + |r|]
      && AllSpace(s[..o]) && AllSpace(s[o + |r|..])
  {
    var t := StripStart(s);
    var r := StripEnd(t);
    StripEnds(s);
    SliceOfCuts(s, |s| - |t|, |r|);
    r
  }

  /** The ends of `rstrip(lstrip(s))`, and when it is empty. */
  lemma StripEnds(s: string)
    ensures var r := StripEnd(StripStart(s));
      && (r == [] || (!IsSpace(r[0]) && !IsSpace(r[|r| - 1])))
      && (r == [] <==> AllSpace(s))
  {
    var t := StripStart(s);
    var r := StripEnd(t);
    assert r != [] ==> r[0] == t[0];
    assert AllSpace(s) ==> t == [] by {
      if t != [] { assert s[|s| - |t|] == t[0]; }
    }
    assert r == [] ==> AllSpace(s) by {
      if r == [] {
        assert AllSpace(t[0..]);
        assert t == [];
        assert s[..|s|] == s;
      }
    }
  }

  /** Cutting `n` characters off the front and then keeping `m` is the
      slice from `n` to `n + m`, and what follows it in the cut text
      follows it in the whole. */
  lemma SliceOfCuts(s: string, n: nat, m: nat)
    requires n <= |s| && m <= |s| - n && AllSpace(s[n..][m..])
    ensures s[n..][..m] == s[n..n + m] && AllSpace(s[n + m..])
  {
    assert s[n..][m..] == s[n + m..];
  }


  /** Stripping twice is stripping once. */
  lemma StripIdempotent(s: string)
    ensures Strip(Strip(s)) == Strip(s)
  {
    var r := Strip(s);
    SpaceRunEndAt(r, 0, 0);
    SpaceRunStartAt(r, |r|, |r|);
    assert r[0..] == r && r[..|r|] == r;
  }

  /** Leading whitespace before a text that starts with a non-space is
      exactly what `lstrip` drops. */
  lemma StripStartPadded(a: string, u: string)
    requires AllSpace(a) && (u == [] || !IsSpace(u[0]))
    ensures StripStart(a + u) == u
  {
    var s := a + u;
    assert forall i :: 0 <= i < |a| ==> s[i] == a[i];
    assert u != [] ==> s[|a|] == u[0];
    SpaceRunEndAt(s, 0, |a|);
    assert s[|a|..] == u;
  }

  /** Trailing whitespace after a text that ends with a non-space is
      exactly what `rstrip` drops. */
  lemma StripEndPadded(u: string, b: string)
    requires AllSpace(b) && (u == [] || !IsSpace(u[|u| - 1]))
    ensures StripEnd(u + b) == u
  {
    var s := u + b;
    assert forall i :: |u| <= i < |s| ==> s[i] == b[i - |u|];
    assert u != [] ==> s[|u| - 1] == u[|u| - 1];
    SpaceRunStartAt(s, |s|, |u|);
    assert s[..|u|] == u;
  }

  /** A text with whitespace on both sides strips to itself when it neither
      starts nor ends with whitespace. */
  lemma StripPadded(a: string, m: string, b: string)
    requires AllSpace(a) && AllSpace(b)
    requires m == [] || (!IsSpace(m[0]) && !IsSpace(m[|m| - 1]))
    ensures Strip(a + m + b) == m
  {
    if m == [] {
      assert AllSpace(a + m + b) by {
        forall i | 0 <= i < |a + m + b| ensures IsSpace((a + m + b)[i]) {
          if i >= |a| { assert (a + m + b)[i] == b[i - |a|]; }
        }
      }
    } else {
      assert a + m + b == a + (m + b);
      StripStartPadded(a, m + b);
      StripEndPadded(m, b);
    }
  }

  // ---------------------------------------------------------- upper/lower

  /** `str.upper()` on one character, for ASCII and Latin-1 letters. */
  function UpperChar(c: char): char {
    if 'a' <= c <= 'z' then (c as int - 32) as char
    else if '\U{E0}' <= c <= '\U{FE}' && c != '\U{F7}' then (c as int - 32) as char
    else if c == '\U{FF}' then '\U{178}'
    else if c == '\U{B5}' then '\U{39C}'
    else c
  }

  /** `str.lower()` on one character, for ASCII and Latin-1 letters. */
  function LowerChar(c: char): char {
    if 'A' <= c <= 'Z' then (c as int + 32) as char
    else if '\U{C0}' <= c <= '\U{DE}' && c != '\U{D7}' then (c as int + 32) as char
    else c
  }

  /** `str.upper()` on one character: `ß` has no single upper-case form
      and becomes `SS`. */
  function UpperOf(c: char): (u: string)
    ensures c != '\U{DF}' ==> u == [UpperChar(c)]
    ensures |u| > 0 && 'o' !in u
  {
    if c == '\U{DF}' then "SS" else [UpperChar(c)]
  }

  /** `str.upper()`: every character upper-cased in place, `ß` widened to
      `SS`; without an `ß` the length is kept. */
  function Upper(s: string): (r: string)
    ensures |r| >= |s|
    ensures s != [] ==> r[0] == UpperOf(s[0])[0]
    ensures '\U{DF}' !in s ==> |r| == |s| && forall i :: 0 <= i < |s| ==> r[i] == UpperChar(s[i])
  {
    if s == [] then []
    else
      assert '\U{DF}' !in s ==> '\U{DF}' !in s[1..] by {
        if '\U{DF}' in s[1..] {
          var j :| 0 <= j < |s[1..]| && s[1..][j] == '\U{DF}';
          assert s[j + 1] == '\U{DF}';
        }
      }
      UpperOf(s[0]) + Upper(s[1..])
  }

  /** Upper-casing works character by character. */
  lemma {:induction false} UpperAppend(a: string, b: string)
    ensures Upper(a + b) == Upper(a) + Upper(b)
  {
    if a != [] {
      assert (a + b)[0] == a[0] && (a + b)[1..] == a[1..] + b;
      UpperAppend(a[1..], b);
      calc {
        Upper(a + b);
        UpperOf(a[0]) + Upper(a[1..] + b);
        UpperOf(a[0]) + (Upper(a[1..]) + Upper(b));
        (UpperOf(a[0]) + Upper(a[1..])) + Upper(b);
        Upper(a) + Upper(b);
      }
    } else {
      assert a + b == b;
    }
  }

  /** An `ß` shows up as an `S` once upper-cased. */
  lemma {:induction false} SharpUpper(s: string)
    requires '\U{DF}' in s
    ensures 'S' in Upper(s)
  {
    if s[0] != '\U{DF}' {
      assert '\U{DF}' in s[1..] by {
        var j :| 0 <= j < |s| && s[j] == '\U{DF}';
        assert s[1..][j - 1] == s[j];
      }
      SharpUpper(s[1..]);
      var u := Upper(s[1..]);
      var j :| 0 <= j < |u| && u[j] == 'S';
      assert Upper(s)[|UpperOf(s[0])| + j] == 'S';
    }
  }

  /** No upper-cased text holds a small `o`. */
  lemma {:induction false} UpperHasNoSmallO(s: string)
    ensures 'o' !in Upper(s)
  {
    if s != [] {
      UpperHasNoSmallO(s[1..]);
    }
  }

  function Lower(s: string): (r: string)
    ensures |r| == |s| && forall i :: 0 <= i < |s| ==> r[i] == LowerChar(s[i])
  {
    seq(|s|, i requires 0 <= i < |s| => LowerChar(s[i]))
  }

  // ----------------------------------------------------- split and join

  /** Length of the leading run of non-whitespace characters. */
  function WordLength(s: string): (n: nat)
    ensures n <= |s| && NoSpace(s[..n]) && (n < |s| ==> IsSpace(s[n]))
  {
    if s == [] || IsSpace(s[0]) then 0 else 1 + WordLength(s[1..])
  }

  /** `str.split()` with no separator: the maximal runs of non-whitespace
      characters, in order. */
  function Words(s: string): (ws: seq<string>)
    ensures forall k :: 0 <= k < |ws| ==> IsWord(ws[k])
    ensures ws == [] <==> AllSpace(s)
    decreases |s|
  {
    if s == [] then []
    else if IsSpace(s[0]) then
      var ws := Words(s[1..]);
      assert AllSpace(s) <==> AllSpace(s[1..]) by {
        if AllSpace(s[1..]) {
          forall i | 0 <= i < |s| ensures IsSpace(s[i]) { if i > 0 { assert s[i] == s[1..][i - 1]; } }
        }
      }
      ws
    else
      var n := WordLength(s);
      [s[..n]] + Words(s[n..])
  }

  /** `' '.join(ws)`. */
  function JoinWords(ws: seq<string>): string {
    if |ws| == 0 then ""
    else if |ws| == 1 then ws[0]
    else ws[0] + " " + JoinWords(ws[1..])
  }

  lemma {:induction false} WordLengthOfWord(w: string, t: string)
    requires NoSpace(w) && (t == [] || IsSpace(t[0]))
    ensures WordLength(w + t) == |w|
  {
    if w != [] {
      assert (w + t)[1..] == w[1..] + t;
      WordLengthOfWord(w[1..], t);
    }
  }

  /** A word followed by whitespace (or by nothing) splits off as the first
      word. */
  lemma WordsOfWordThen(w: string, t: string)
    requires IsWord(w) && (t == [] || IsSpace(t[0]))
    ensures Words(w + t) == [w] + Words(t)
  {
    var s := w + t;
    WordLengthOfWord(w, t);
    assert s[0] == w[0];
    assert s[..|w|] == w;
    assert s[|w|..] == t;
  }

  /** Joining words with single spaces and splitting again gives the words
      back. */
  lemma {:induction false} WordsOfJoin(ws: seq<string>)
    requires forall k :: 0 <= k < |ws| ==> IsWord(ws[k])
    ensures Words(JoinWords(ws)) == ws
  {
    if |ws| == 1 {
      WordsOfWordThen(ws[0], []);
      assert ws[0] + [] == ws[0];
    } else if |ws| > 1 {
      var tail := JoinWords(ws[1..]);
      var rest := " " + tail;
      assert JoinWords(ws) == ws[0] + rest;
      WordsOfWordThen(ws[0], rest);
      assert rest[1..] == tail;
      assert Words(rest) == Words(tail);
      WordsOfJoin(ws[1..]);
    }
  }

  /** A space between two strings separates their words. */
  lemma {:induction false} WordsOfSpaced(x: string, y: string)
    ensures Words(x + " " + y) == Words(x) + Words(y)
    decreases |x|
  {
    var s := x + " " + y;
    if x == [] {
      assert s == " " + y && s[1..] == y;
      assert Words(s) == Words(y);
    } else if IsSpace(x[0]) {
      assert s[0] == x[0] && s[1..] == x[1..] + " " + y;
      WordsOfSpaced(x[1..], y);
      assert Words(s) == Words(s[1..]);
    } else {
      var n := WordLength(x);
      assert s == x[..n] + (x[n..] + " " + y);
      WordLengthOfWord(x[..n], x[n..] + " " + y);
      assert s[0] == x[0] && s[..n] == x[..n];
      assert s[n..] == x[n..] + " " + y;
      WordsOfSpaced(x[n..], y);
      assert Words(s) == [x[..n]] + Words(s[n..]);
      assert Words(x) == [x[..n]] + Words(x[n..]);
    }
  }

  /** Trailing whitespace adds no word. */
  lemma {:induction false} WordsOfTrailingSpace(x: string, y: string)
    requires AllSpace(y)
    ensures Words(x + y) == Words(x)
    decreases |x|
  {
    var s := x + y;
    if x == [] {
      assert s == y;
    } else if IsSpace(x[0]) {
      assert s[1..] == x[1..] + y;
      WordsOfTrailingSpace(x[1..], y);
    } else {
      var n := WordLength(x);
      assert s == x[..n] + (x[n..] + y);
      WordLengthOfWord(x[..n], x[n..] + y);
      assert s[..n] == x[..n];
      assert s[n..] == x[n..] + y;
      WordsOfTrailingSpace(x[n..], y);
    }
  }

  /** Leading whitespace adds no word. */
  lemma {:induction false} WordsOfLeadingSpace(a: string, u: string)
    requires AllSpace(a)
    ensures Words(a + u) == Words(u)
  {
    if a == [] {
      assert a + u == u;
    } else {
      assert IsSpace((a + u)[0]) && (a + u)[1..] == a[1..] + u;
      WordsOfLeadingSpace(a[1..], u);
      assert Words(a + u) == Words(a[1..] + u);
    }
  }

  /** `str.lstrip()` keeps every word. */
  lemma WordsOfStripStart(s: string)
    ensures Words(StripStart(s)) == Words(s)
  {
    var r := StripStart(s);
    var a := s[..|s| - |r|];
    assert s == a + r;
    WordsOfLeadingSpace(a, r);
  }

  /** `str.rstrip()` keeps every word. */
  lemma WordsOfStripEnd(s: string)
    ensures Words(StripEnd(s)) == Words(s)
  {
    var r := StripEnd(s);
    var b := s[|r|..];
    assert s == r + b;
    WordsOfTrailingSpace(r, b);
  }

  /** `str.strip()` keeps every word. */
  lemma WordsOfStrip(s: string)
    ensures Words(Strip(s)) == Words(s)
  {
    WordsOfStripStart(s);
    WordsOfStripEnd(StripStart(s));
  }

  /** Joining two non-empty runs of words is joining each and putting one
      space between them. */
  lemma {:induction false} JoinAppend(a: seq<string>, b: seq<string>)
    requires a != [] && b != []
    ensures JoinWords(a + b) == JoinWords(a) + " " + JoinWords(b)
  {
    if |a| == 1 {
      assert (a + b)[0] == a[0];
      assert (a + b)[1..] == b;
    } else {
      assert (a + b)[0] == a[0];
      assert (a + b)[1..] == a[1..] + b;
      JoinAppend(a[1..], b);
    }
  }

  /** A single-space join of words is never empty when there is a word. */
  lemma JoinNonEmpty(ws: seq<string>)
    requires ws != [] && forall k :: 0 <= k < |ws| ==> IsWord(ws[k])
    ensures JoinWords(ws) != []
  {
    assert IsWord(ws[0]);
  }

  // ------------------------------------------------------------ replace

  /** `s.replace(' ', '_')`: only U+0020 is replaced. */
  function ReplaceSpaces(s: string): (r: string)
    ensures |r| == |s| && ' ' !in r
    ensures forall i :: 0 <= i < |s| ==> r[i] == if s[i] == ' ' then '_' else s[i]
  {
    seq(|s|, i requires 0 <= i < |s| => if s[i] == ' ' then '_' else s[i])
  }

  /** The slice `s[0:n]`, which Python clamps to the length of `s`. */
  function Take(s: string, n: nat): (r: string)
    ensures |r| == if |s| < n then |s| else n
    ensures r == s[..|r|]
  {
    if |s| < n then s else s[..n]
  }

  // ------------------------------------------------------------- digits

  predicate IsDigit(c: char) {
    '0' <= c <= '9'
  }

  predicate AllDigits(s: string) {
    forall i :: 0 <= i < |s| ==> IsDigit(s[i])
  }

  function DigitChar(d: nat): (c: char)
    requires d < 10
    ensures IsDigit(c) && c as int - '0' as int == d
  {
    ('0' as int + d) as char
  }

  /** The number a string of decimal digits denotes. */
  function DigitsValue(s: string): nat
    requires AllDigits(s)
  {
    if s == [] then 0 else 10 * DigitsValue(s[..|s| - 1]) + (s[|s| - 1] as int - '0' as int)
  }

  /** `str(n)` for a non-negative integer: its decimal digits, which denote it. */
  function Decimal(n: nat): (s: string)
    ensures s != [] && AllDigits(s) && DigitsValue(s) == n
    ensures n >= 10 ==> s[0] != '0'
  {
    if n < 10 then [DigitChar(n)]
    else
      var s := Decimal(n / 10) + [DigitChar(n % 10)];
      assert s[..|s| - 1] == Decimal(n / 10);
      s
  }

  function Zeros(k: nat): (s: string)
    ensures |s| == k && forall i :: 0 <= i < k ==> s[i] == '0'
  {
    seq(k, i => '0')
  }

  /** Leading zeros do not change the value of a digit string. */
  lemma {:induction false} LeadingZero(s: string)
    requires AllDigits(s)
    ensures AllDigits("0" + s) && DigitsValue("0" + s) == DigitsValue(s)
  {
    if s != [] {
      var t := "0" + s;
      assert t[..|t| - 1] == "0" + s[..|s| - 1];
      assert t[|t| - 1] == s[|s| - 1];
      LeadingZero(s[..|s| - 1]);
    }
  }

  lemma {:induction false} LeadingZeros(k: nat, s: string)
    requires AllDigits(s)
    ensures AllDigits(Zeros(k) + s) && DigitsValue(Zeros(k) + s) == DigitsValue(s)
  {
    if k > 0 {
      LeadingZeros(k - 1, s);
      assert Zeros(k) == "0" + Zeros(k - 1);
      assert Zeros(k) + s == "0" + (Zeros(k - 1) + s);
      LeadingZero(Zeros(k - 1) + s);
    } else {
      assert Zeros(k) + s == s;
    }
  }

  /** `f"{n:0<width>}"`: the decimal digits of `n`, left-padded with zeros to
      at least `width` characters; the padded string still denotes `n`. */
  function ZeroPad(n: nat, width: nat): (s: string)
    ensures |s| == if |Decimal(n)| < width then width else |Decimal(n)|
    ensures AllDigits(s) && DigitsValue(s) == n
  {
    var d := Decimal(n);
    var k := if |d| < width then width - |d| else 0;
    LeadingZeros(k, d);
    Zeros(k) + d
  }
}
