/**
 Greedy text wrapping and two-column rows.

 `WrapText` runs the loops over the source lines, the words of each line and the
 characters of a word that is too long; `Wrapped` is the value it computes. The
 theorems are about `Wrapped`: lines fit, ink is conserved, every line is a fixed
 point, and a wider receipt never needs more lines.
 */
module Wrapping {
  import opened Bytes

  /** Finished lines and the line being filled. */
  datatype Fill = Fill(lines: seq<Ascii>, current: Ascii)

  // ---------- Splitting ----------

  /** Splits at every newline; n newlines give n + 1 parts. */
  function SplitLines(value: Ascii): (parts: seq<Ascii>)
    ensures |parts| >= 1
  {
    if value == [] then [[]]
    else
      var rest := SplitLines(value[1..]);
      if value[0] == NEWLINE then [[]] + rest
      else [[value[0]] + rest[0]] + rest[1..]
  }

  /** Length of the whitespace-free prefix. */
  function WordLength(s: Ascii): (n: nat)
    ensures n <= |s|
    ensures forall i :: 0 <= i < n ==> !IsWhitespace(s[i])
    ensures n < |s| ==> IsWhitespace(s[n])
  {
    if s == [] || IsWhitespace(s[0]) then 0 else 1 + WordLength(s[1..])
  }

  function Words(s: Ascii): (words: seq<Ascii>)
    ensures forall i :: 0 <= i < |words| ==> IsWord(words[i])
    decreases |s|
  {
    if s == [] then []
    else if IsWhitespace(s[0]) then Words(s[1..])
    else [s[..WordLength(s)]] + Words(s[WordLength(s)..])
  }

  predicate IsWord(w: Ascii) { w != [] && forall i :: 0 <= i < |w| ==> !IsWhitespace(w[i]) }

  // ---------- Greedy filling ----------

  function Flush(f: Fill): Fill {
    if f.current == [] then f else Fill(f.lines + [f.current], [])
  }

  /** Adds one character of an over-long word, starting a new line when the current one is full. */
  function PlaceChar(f: Fill, b: byte, width: nat): Fill {
    if f.current != [] && |f.current| + 1 > width then Fill(f.lines + [f.current], [b])
    else Fill(f.lines, f.current + [b])
  }

  function PlaceChars(f: Fill, word: Ascii, width: nat): Fill
    decreases |word|
  {
    if word == [] then f else PlaceChars(PlaceChar(f, word[0], width), word[1..], width)
  }

  function PlaceWord(f: Fill, word: Ascii, width: nat): Fill {
    var g := if |f.current| + (if f.current == [] then 0 else 1) + |word| > width then Flush(f) else f;
    if |word| > width then PlaceChars(Flush(g), word, width)
    else Fill(g.lines, if g.current == [] then word else g.current + [SPACE] + word)
  }

  function PlaceWords(f: Fill, words: seq<Ascii>, width: nat): Fill
    decreases |words|
  {
    if words == [] then f else PlaceWords(PlaceWord(f, words[0], width), words[1..], width)
  }

  function PlaceLine(lines: seq<Ascii>, source: Ascii, width: nat): seq<Ascii> {
    if source == [] then lines + [[]]
    else Flush(PlaceWords(Fill(lines, []), Words(source), width)).lines
  }

  function PlaceLines(lines: seq<Ascii>, sources: seq<Ascii>, width: nat): seq<Ascii>
    decreases |sources|
  {
    if sources == [] then lines
    else PlaceLines(PlaceLine(lines, sources[0], width), sources[1..], width)
  }

  function Wrapped(value: Ascii, width: nat): seq<Ascii> {
    PlaceLines([], SplitLines(value), width)
  }

  /** The character loop of `wrap_text` for a word wider than a line. */
  method BreakWord(lines: seq<Ascii>, word: Ascii, width: nat) returns (result: seq<Ascii>, segment: Ascii)
    ensures Fill(result, segment) == PlaceChars(Fill(lines, []), word, width)
  {
    result, segment := lines, [];
    for k := 0 to |word|
      invariant PlaceChars(Fill(result, segment), word[k..], width) == PlaceChars(Fill(lines, []), word, width)
    {
      assert word[k..][0] == word[k] && word[k..][1..] == word[k + 1..];
      ghost var filled := Fill(result, segment);
      if segment != [] && |segment| + 1 > width {
        result := result + [segment];
        segment := [];
      }
      segment := segment + [word[k]];
      assert Fill(result, segment) == PlaceChar(filled, word[k], width);
    }
  }

  /** The word loop of `wrap_text` over one non-empty source line. */
  method WrapLine(lines: seq<Ascii>, source: Ascii, width: nat) returns (result: seq<Ascii>)
    requires source != []
    ensures result == PlaceLine(lines, source, width)
  {
    result := lines;
    var current := [];
    var words := Words(source);
    for j := 0 to |words|
      invariant PlaceWords(Fill(result, current), words[j..], width) == PlaceWords(Fill(lines, []), words, width)
    {
      var word := words[j];
      assert words[j..][0] == word && words[j..][1..] == words[j + 1..];
      ghost var start := Fill(result, current);
      var candidateWidth := |current| + (if current == [] then 0 else 1) + |word|;
      if current != [] && candidateWidth > width {
        result := result + [current];
        current := [];
      }
      if |word| > width {
        if current != [] {
          result := result + [current];
          current := [];
        }
        result, current := BreakWord(result, word, width);
      } else {
        if current != [] {
          current := current + [SPACE];
        }
        current := current + word;
      }
      assert Fill(result, current) == PlaceWord(start, word, width);
    }
    if current != [] {
      result := result + [current];
    }
  }

  lemma LineBreaks(value: Ascii, width: nat)
    ensures forall a: Ascii, b: Ascii :: value == a + [NEWLINE] + b ==> Wrapped(value, width) == Wrapped(a, width) + Wrapped(b, width)
    ensures Wrapped([], width) == [[]]
  {
    forall a: Ascii, b: Ascii | value == a + [NEWLINE] + b ensures Wrapped(value, width) == Wrapped(a, width) + Wrapped(b, width) {
      NewlinesBreak(a, b, width);
    }
    EmptyIsOneLine(width);
  }

  lemma EmptyIsOneLine(width: nat)
    ensures Wrapped([], width) == [[]]
  {
    assert SplitLines([]) == [[]];
    assert PlaceLine([], [], width) == [[]];
    assert PlaceLines([], [[]], width) == PlaceLines([[]], [], width);
  }

  method WrapText(value: Ascii, width: nat) returns (result: seq<Ascii>)
    ensures result == Wrapped(value, width)
    ensures forall a: Ascii, b: Ascii :: value == a + [NEWLINE] + b ==> result == Wrapped(a, width) + Wrapped(b, width)
    ensures value == [] ==> result == [[]]
  {
    LineBreaks(value, width);
    result := [];
    var sources := SplitLines(value);
    for i := 0 to |sources|
      invariant PlaceLines(result, sources[i..], width) == Wrapped(value, width)
    {
      assert sources[i..][0] == sources[i] && sources[i..][1..] == sources[i + 1..];
      if sources[i] == [] {
        result := result + [[]];
      } else {
        result := WrapLine(result, sources[i], width);
      }
    }
  }

  // ---------- A wider receipt never needs more lines ----------

  /** `b` has not used more paper than `a`. */
  ghost predicate Ahead(b: Fill, a: Fill) {
    |b.lines| < |a.lines| || (|b.lines| == |a.lines| && |b.current| <= |a.current|)
  }

  lemma {:induction false} PlaceCharsAhead(a: Fill, b: Fill, word: Ascii, narrow: nat, wide: nat)
    requires 1 <= narrow <= wide && Ahead(b, a)
    ensures Ahead(PlaceChars(b, word, wide), PlaceChars(a, word, narrow))
    decreases |word|
  {
    if word != [] {
      PlaceCharsAhead(PlaceChar(a, word[0], narrow), PlaceChar(b, word[0], wide), word[1..], narrow, wide);
    }
  }

  /** Breaking a word that does not fit finishes at least one line. */
  lemma {:induction false} BreakingFinishesALine(f: Fill, word: Ascii, width: nat)
    requires width >= 1 && |f.current| <= width
    ensures |PlaceChars(f, word, width).lines| >= |f.lines|
    ensures |f.current| + |word| > width ==> |PlaceChars(f, word, width).lines| > |f.lines|
    decreases |word|
  {
    if word != [] {
      BreakingFinishesALine(PlaceChar(f, word[0], width), word[1..], width);
    }
  }

  lemma PlaceWordAhead(a: Fill, b: Fill, word: Ascii, narrow: nat, wide: nat)
    requires 1 <= narrow <= wide && Ahead(b, a) && word != []
    ensures Ahead(PlaceWord(b, word, wide), PlaceWord(a, word, narrow))
  {
    if |word| > wide {
      PlaceCharsAhead(Flush(a), Flush(b), word, narrow, wide);
    } else if |word| > narrow {
      BreakingFinishesALine(Flush(a), word, narrow);
    }
  }

  lemma {:induction false} PlaceWordsAhead(a: Fill, b: Fill, words: seq<Ascii>, narrow: nat, wide: nat)
    requires 1 <= narrow <= wide && Ahead(b, a)
    requires forall i :: 0 <= i < |words| ==> IsWord(words[i])
    ensures Ahead(PlaceWords(b, words, wide), PlaceWords(a, words, narrow))
    decreases |words|
  {
    if words != [] {
      PlaceWordAhead(a, b, words[0], narrow, wide);
      PlaceWordsAhead(PlaceWord(a, words[0], narrow), PlaceWord(b, words[0], wide), words[1..], narrow, wide);
    }
  }

  lemma {:induction false} PlaceLinesAhead(a: seq<Ascii>, b: seq<Ascii>, sources: seq<Ascii>, narrow: nat, wide: nat)
    requires 1 <= narrow <= wide && |b| <= |a|
    ensures |PlaceLines(b, sources, wide)| <= |PlaceLines(a, sources, narrow)|
    decreases |sources|
  {
    if sources != [] {
      PlaceWordsAhead(Fill(a, []), Fill(b, []), Words(sources[0]), narrow, wide);
      PlaceLinesAhead(PlaceLine(a, sources[0], narrow), PlaceLine(b, sources[0], wide), sources[1..], narrow, wide);
    }
  }

  /** The wrapper is monotone in the width, broken long words included. */
  lemma WiderNeverNeedsMoreLines(value: Ascii, narrow: nat, wide: nat)
    requires 1 <= narrow <= wide
    ensures |Wrapped(value, wide)| <= |Wrapped(value, narrow)|
  {
    PlaceLinesAhead([], [], SplitLines(value), narrow, wide);
  }

  // ---------- What an emitted line looks like ----------

  /** Two adjacent whitespace bytes start at i. */
  predicate GapAt(s: Ascii, i: nat) {
    i + 1 < |s| && IsWhitespace(s[i]) && IsWhitespace(s[i + 1])
  }

  /** Words joined by single spaces, no wider than a line. */
  ghost predicate Tidy(line: Ascii, width: nat) {
    && 0 < |line| <= width
    && !IsWhitespace(line[0]) && !IsWhitespace(line[|line| - 1])
    && (forall i :: 0 <= i < |line| && IsWhitespace(line[i]) ==> line[i] == SPACE)
    && forall i: nat :: !GapAt(line, i)
  }

  ghost predicate Emitted(line: Ascii, width: nat) { line == [] || Tidy(line, width) }

  ghost predicate AllEmitted(lines: seq<Ascii>, width: nat) {
    forall i :: 0 <= i < |lines| ==> Emitted(lines[i], width)
  }

  /** From `before` to `after` only tidy lines were finished. */
  ghost predicate Extends(before: seq<Ascii>, after: seq<Ascii>, width: nat) {
    && |before| <= |after| && after[..|before|] == before
    && forall i :: |before| <= i < |after| ==> Tidy(after[i], width)
  }

  lemma TidyJoin(line: Ascii, word: Ascii, width: nat)
    requires Tidy(line, width) && IsWord(word)
    ensures |line| + |word| <= width ==> Tidy(line + word, width)
    ensures |line| + 1 + |word| <= width ==> Tidy(line + [SPACE] + word, width)
  {
    var spaced := line + [SPACE] + word;
    assert forall i: nat :: GapAt(line + word, i) ==> GapAt(line, i);
    assert forall i: nat :: GapAt(spaced, i) ==> GapAt(line, i);
    assert spaced[|line|] == SPACE;
  }

  lemma {:induction false} PlaceCharsTidy(f: Fill, word: Ascii, width: nat)
    requires width >= 1 && Emitted(f.current, width)
    requires forall i :: 0 <= i < |word| ==> !IsWhitespace(word[i])
    ensures Extends(f.lines, PlaceChars(f, word, width).lines, width)
    ensures Emitted(PlaceChars(f, word, width).current, width)
    decreases |word|
  {
    if word != [] {
      if f.current != [] {
        TidyJoin(f.current, [word[0]], width);
      }
      PlaceCharsTidy(PlaceChar(f, word[0], width), word[1..], width);
    }
  }

  lemma ExtendsOn(a: seq<Ascii>, b: seq<Ascii>, c: seq<Ascii>, width: nat)
    requires Extends(a, b, width) && Extends(b, c, width)
    ensures Extends(a, c, width)
  {
    hide Tidy;
    assert forall i :: |a| <= i < |b| ==> c[i] == c[..|b|][i];
  }

  lemma WordIsTidy(word: Ascii, width: nat)
    requires IsWord(word) && |word| <= width
    ensures Tidy(word, width)
  {
  }

  lemma FlushTidy(f: Fill, width: nat)
    requires Emitted(f.current, width)
    ensures Extends(f.lines, Flush(f).lines, width) && Extends(f.lines, f.lines, width) && Emitted(Flush(f).current, width)
  {
    hide Tidy;
  }

  lemma PlaceWordTidy(f: Fill, word: Ascii, width: nat)
    requires width >= 1 && Emitted(f.current, width) && IsWord(word)
    ensures Extends(f.lines, PlaceWord(f, word, width).lines, width)
    ensures Emitted(PlaceWord(f, word, width).current, width)
  {
    FlushTidy(f, width);
    if |word| > width {
      PlaceCharsTidy(Flush(f), word, width);
      ExtendsOn(f.lines, Flush(f).lines, PlaceWord(f, word, width).lines, width);
    } else {
      WordIsTidy(word, width);
      if f.current != [] {
        TidyJoin(f.current, word, width);
      }
    }
    hide Tidy, Extends, PlaceChars, IsWord;
  }

  lemma {:induction false} PlaceWordsTidy(f: Fill, words: seq<Ascii>, width: nat)
    requires width >= 1 && Emitted(f.current, width)
    requires forall i :: 0 <= i < |words| ==> IsWord(words[i])
    ensures Extends(f.lines, PlaceWords(f, words, width).lines, width)
    ensures Emitted(PlaceWords(f, words, width).current, width)
    decreases |words|
  {
    hide Tidy, PlaceWord, IsWord, Emitted;
    if words != [] {
      var g := PlaceWord(f, words[0], width);
      PlaceWordTidy(f, words[0], width);
      PlaceWordsTidy(g, words[1..], width);
      ExtendsOn(f.lines, g.lines, PlaceWords(f, words, width).lines, width);
    } else {
      assert f.lines[..|f.lines|] == f.lines;
    }
  }

  /** A non-empty source line only yields tidy lines. */
  lemma PlaceLineTidy(lines: seq<Ascii>, source: Ascii, width: nat)
    requires width >= 1 && source != []
    ensures Extends(lines, PlaceLine(lines, source, width), width)
  {
    PlaceWordsTidy(Fill(lines, []), Words(source), width);
  }

  lemma {:induction false} PlaceLinesEmitted(lines: seq<Ascii>, sources: seq<Ascii>, width: nat)
    requires width >= 1 && AllEmitted(lines, width)
    ensures AllEmitted(PlaceLines(lines, sources, width), width)
    decreases |sources|
  {
    if sources != [] {
      if sources[0] != [] {
        PlaceLineTidy(lines, sources[0], width);
      }
      var next := PlaceLine(lines, sources[0], width);
      assert forall i :: 0 <= i < |lines| ==> next[i] == lines[i];
      PlaceLinesEmitted(next, sources[1..], width);
    }
  }

  lemma BlankHasNoWord(line: Ascii)
    requires line != [] && IsWhitespace(line[0])
    ensures Words(line) == Words(line[1..])
  {
  }

  lemma WordsAfterFirst(line: Ascii)
    requires line != [] && !IsWhitespace(line[0]) && WordLength(line) < |line|
    ensures Words(line) == [line[..WordLength(line)]] + Words(line[WordLength(line) + 1..])
  {
    var n := WordLength(line);
    var rest := line[n..];
    assert Words(line) == [line[..n]] + Words(rest);
    hide Words, WordLength;
    assert rest[0] == line[n] && rest[1..] == line[n + 1..];
    BlankHasNoWord(rest);
  }

  lemma TailIsTidy(line: Ascii, width: nat, n: nat)
    requires Tidy(line, width) && n < |line| && IsWhitespace(line[n])
    ensures n + 1 < |line| && line[n] == SPACE && Tidy(line[n + 1..], width)
  {
    var rest := line[n + 1..];
    assert !GapAt(line, n);
    assert forall i: nat :: GapAt(rest, i) ==> GapAt(line, n + 1 + i);
  }

  /** The text after the first word of a tidy line is tidy, and its words are the remaining words. */
  lemma TidyTail(line: Ascii, width: nat)
    requires Tidy(line, width) && WordLength(line) < |line|
    ensures var n := WordLength(line);
      && n + 1 < |line| && line[n] == SPACE && Tidy(line[n + 1..], width)
      && Words(line) == [line[..n]] + Words(line[n + 1..])
  {
    WordsAfterFirst(line);
    hide Tidy, Words;
    TailIsTidy(line, width, WordLength(line));
  }

  lemma Spaced(a: Ascii, b: Ascii, c: Ascii)
    ensures a + [SPACE] + b + [SPACE] + c == a + [SPACE] + (b + [SPACE] + c)
  {
  }

  lemma WholeWord(line: Ascii)
    requires line != [] && WordLength(line) == |line|
    ensures Words(line) == [line]
  {
    assert line[..|line|] == line && line[|line|..] == [];
  }

  lemma FirstWordOfTidy(line: Ascii, width: nat)
    requires Tidy(line, width)
    ensures 0 < WordLength(line) && IsWord(line[..WordLength(line)])
  {
  }

  lemma PlaceFitting(f: Fill, word: Ascii, width: nat)
    requires |f.current| + (if f.current == [] then 0 else 1) + |word| <= width && word != []
    ensures PlaceWord(f, word, width) == Fill(f.lines, if f.current == [] then word else f.current + [SPACE] + word)
    ensures PlaceWords(f, [word], width) == PlaceWord(f, word, width)
  {
    assert [word][1..] == [];
  }

  lemma PlaceFirstWord(f: Fill, word: Ascii, rest: seq<Ascii>, width: nat)
    ensures PlaceWords(f, [word] + rest, width) == PlaceWords(PlaceWord(f, word, width), rest, width)
  {
    assert ([word] + rest)[1..] == rest;
  }

  /** Placing a tidy text word by word rebuilds it on the current line. */
  lemma {:induction false} PlaceTidy(f: Fill, line: Ascii, width: nat)
    requires Tidy(line, width)
    requires |f.current| + (if f.current == [] then 0 else 1) + |line| <= width
    ensures PlaceWords(f, Words(line), width)
         == Fill(f.lines, if f.current == [] then line else f.current + [SPACE] + line)
    decreases |line|
  {
    hide Words, WordLength, PlaceWord, PlaceWords;
    FirstWordOfTidy(line, width);
    var n := WordLength(line);
    var word := line[..n];
    PlaceFitting(f, word, width);
    if n == |line| {
      assert word == line;
      WholeWord(line);
    } else {
      TidyTail(line, width);
      hide Tidy, IsWord;
      var rest := line[n + 1..];
      assert line == word + [SPACE] + rest;
      PlaceFirstWord(f, word, Words(rest), width);
      PlaceTidy(PlaceWord(f, word, width), rest, width);
      Spaced(f.current, word, rest);
    }
  }

  lemma {:induction false} SplitWithoutNewlines(value: Ascii)
    requires NEWLINE !in value
    ensures SplitLines(value) == [value]
  {
    if value != [] {
      SplitWithoutNewlines(value[1..]);
      assert [value[0]] + value[1..] == value;
    }
  }

  lemma WrappedOneLine(value: Ascii, width: nat)
    requires NEWLINE !in value
    ensures Wrapped(value, width) == PlaceLine([], value, width)
  {
    SplitWithoutNewlines(value);
    assert PlaceLines([], [value], width) == PlaceLines(PlaceLine([], value, width), [value][1..], width);
  }

  /** Text on one source line never wraps to a blank line. */
  lemma OneLineWrapsTidily(value: Ascii, width: nat)
    requires width >= 1 && NEWLINE !in value && value != []
    ensures forall i :: 0 <= i < |Wrapped(value, width)| ==> Tidy(Wrapped(value, width)[i], width)
  {
    WrappedOneLine(value, width);
    PlaceLineTidy([], value, width);
  }

  lemma EmittedIsStable(line: Ascii, width: nat)
    requires Emitted(line, width)
    ensures Wrapped(line, width) == [line]
  {
    if line != [] {
      PlaceTidy(Fill([], []), line, width);
    }
    assert PlaceLine([], line, width) == [] + [line];
    WrappedOneLine(line, width);
  }

  /** Every emitted line fits and is a fixed point of wrapping. */
  lemma WrappedLinesFitAndAreStable(value: Ascii, width: nat, k: nat)
    requires width >= 1 && k < |Wrapped(value, width)|
    ensures |Wrapped(value, width)[k]| <= width
    ensures Emitted(Wrapped(value, width)[k], width)
    ensures Wrapped(Wrapped(value, width)[k], width) == [Wrapped(value, width)[k]]
  {
    PlaceLinesEmitted([], SplitLines(value), width);
    EmittedIsStable(Wrapped(value, width)[k], width);
  }

  /** Exactly the empty text and the tidy texts survive wrapping as one unchanged line. */
  lemma StableIffEmitted(line: Ascii, width: nat)
    requires width >= 1
    ensures Wrapped(line, width) == [line] <==> Emitted(line, width)
  {
    if Wrapped(line, width) == [line] {
      WrappedLinesFitAndAreStable(line, width, 0);
    }
    if Emitted(line, width) {
      EmittedIsStable(line, width);
    }
  }

  // ---------- Ink is conserved, in order ----------

  function Ink(s: Ascii): Ascii {
    if s == [] then [] else (if IsWhitespace(s[0]) then [] else [s[0]]) + Ink(s[1..])
  }

  function InkOf(lines: seq<Ascii>): Ascii {
    if lines == [] then [] else Ink(lines[0]) + InkOf(lines[1..])
  }

  ghost function FillInk(f: Fill): Ascii { InkOf(f.lines) + Ink(f.current) }

  lemma Associates(a: Ascii, b: Ascii, c: Ascii)
    ensures a + (b + c) == (a + b) + c
  {
  }

  lemma InkAppendsByte(a: byte, b: Ascii)
    ensures Ink([a] + b) == Ink([a]) + Ink(b)
  {
    assert ([a] + b)[1..] == b && [a][1..] == [];
  }

  lemma {:induction false} InkAppends(a: Ascii, b: Ascii)
    ensures Ink(a + b) == Ink(a) + Ink(b)
  {
    if a == [] {
      assert a + b == b && Ink(a) == [];
    } else {
      hide Ink;
      InkAppends(a[1..], b);
      InkAppendsByte(a[0], a[1..]);
      InkAppendsByte(a[0], a[1..] + b);
      assert [a[0]] + a[1..] == a && [a[0]] + (a[1..] + b) == a + b;
      Associates(Ink([a[0]]), Ink(a[1..]), Ink(b));
    }
  }

  lemma {:induction false} InkOfAppends(a: seq<Ascii>, b: seq<Ascii>)
    ensures InkOf(a + b) == InkOf(a) + InkOf(b)
  {
    hide Ink;
    if a == [] {
      assert a + b == b;
    } else {
      InkOfAppends(a[1..], b);
      assert (a + b)[0] == a[0] && (a + b)[1..] == a[1..] + b;
      Associates(Ink(a[0]), InkOf(a[1..]), InkOf(b));
    }
  }

  lemma FlushInk(f: Fill)
    ensures FillInk(Flush(f)) == FillInk(f)
    ensures InkOf(Flush(f).lines) == FillInk(f)
  {
    InkOfAppends(f.lines, [f.current]);
    assert InkOf([f.current]) == Ink(f.current) + [];
    assert InkOf(f.lines) + [] == InkOf(f.lines);
  }

  lemma {:induction false} PlaceCharsInk(f: Fill, word: Ascii, width: nat)
    ensures FillInk(PlaceChars(f, word, width)) == FillInk(f) + Ink(word)
    decreases |word|
  {
    if word != [] {
      FlushInk(f);
      var g := PlaceChar(f, word[0], width);
      InkAppends(f.current, [word[0]]);
      InkAppends([word[0]], word[1..]);
      assert [word[0]] + word[1..] == word;
      assert FillInk(g) == FillInk(f) + Ink([word[0]]);
      PlaceCharsInk(g, word[1..], width);
    }
  }

  lemma AppendWordInk(f: Fill, word: Ascii)
    ensures FillInk(Fill(f.lines, if f.current == [] then word else f.current + [SPACE] + word))
         == FillInk(f) + Ink(word)
  {
    InkAppends(f.current + [SPACE], word);
    InkAppends(f.current, [SPACE]);
    assert Ink([SPACE]) == [];
  }

  lemma PlaceWordInk(f: Fill, word: Ascii, width: nat)
    ensures FillInk(PlaceWord(f, word, width)) == FillInk(f) + Ink(word)
  {
    FlushInk(f);
    if |word| > width {
      PlaceCharsInk(Flush(f), word, width);
    } else {
      var g := if |f.current| + (if f.current == [] then 0 else 1) + |word| > width then Flush(f) else f;
      assert FillInk(g) == FillInk(f);
      AppendWordInk(g, word);
    }
  }

  lemma {:induction false} PlaceWordsInk(f: Fill, words: seq<Ascii>, width: nat)
    ensures FillInk(PlaceWords(f, words, width)) == FillInk(f) + InkOf(words)
    decreases |words|
  {
    if words != [] {
      PlaceWordInk(f, words[0], width);
      PlaceWordsInk(PlaceWord(f, words[0], width), words[1..], width);
    }
  }

  lemma {:induction false} WordsKeepInk(s: Ascii)
    ensures InkOf(Words(s)) == Ink(s)
    decreases |s|
  {
    if s != [] {
      if IsWhitespace(s[0]) {
        WordsKeepInk(s[1..]);
      } else {
        var n := WordLength(s);
        InkAppends(s[..n], s[n..]);
        assert s[..n] + s[n..] == s;
        WordsKeepInk(s[n..]);
      }
    }
  }

  lemma {:induction false} SplitLinesKeepsInk(value: Ascii)
    ensures InkOf(SplitLines(value)) == Ink(value)
  {
    if value != [] {
      SplitLinesKeepsInk(value[1..]);
      var rest := SplitLines(value[1..]);
      if value[0] == NEWLINE {
        InkOfAppends([[]], rest);
      } else {
        InkAppends([value[0]], rest[0]);
        assert ([[value[0]] + rest[0]] + rest[1..])[1..] == rest[1..];
      }
    }
  }

  lemma EmptyLineInk(lines: seq<Ascii>)
    ensures InkOf(lines + [[]]) == InkOf(lines) + Ink([])
  {
    InkOfAppends(lines, [[]]);
    assert InkOf([[]]) == [] && Ink([]) == [];
  }

  lemma PlaceLineInk(lines: seq<Ascii>, source: Ascii, width: nat)
    ensures InkOf(PlaceLine(lines, source, width)) == InkOf(lines) + Ink(source)
  {
    EmptyLineInk(lines);
    hide Ink, InkOf, Words, PlaceWords, Flush;
    if source != [] {
      var f := PlaceWords(Fill(lines, []), Words(source), width);
      PlaceWordsInk(Fill(lines, []), Words(source), width);
      WordsKeepInk(source);
      FlushInk(f);
      NoInk(InkOf(lines));
    }
  }

  lemma NoInk(ink: Ascii)
    ensures Ink([]) == [] && ink + Ink([]) == ink
  {
  }

  lemma {:induction false} PlaceLinesInk(lines: seq<Ascii>, sources: seq<Ascii>, width: nat)
    ensures InkOf(PlaceLines(lines, sources, width)) == InkOf(lines) + InkOf(sources)
    decreases |sources|
  {
    if sources != [] {
      hide PlaceLine, Ink;
      PlaceLineInk(lines, sources[0], width);
      PlaceLinesInk(PlaceLine(lines, sources[0], width), sources[1..], width);
    }
  }

  /** Wrapping loses, adds and reorders no visible character. */
  lemma WrappingConservesInk(value: Ascii, width: nat)
    ensures InkOf(Wrapped(value, width)) == Ink(value)
  {
    SplitLinesKeepsInk(value);
    PlaceLinesInk([], SplitLines(value), width);
  }

  lemma {:induction false} InkMember(s: Ascii, b: byte)
    requires !IsWhitespace(b)
    ensures b in Ink(s) <==> b in s
  {
    if s != [] {
      InkMember(s[1..], b);
      assert b in s <==> b == s[0] || b in s[1..];
    }
  }

  lemma {:induction false} InkOfMember(lines: seq<Ascii>, k: nat, b: byte)
    requires k < |lines| && b in Ink(lines[k])
    ensures b in InkOf(lines)
  {
    if k > 0 {
      InkOfMember(lines[1..], k - 1, b);
    }
  }

  predicate IsLayoutText(s: Ascii) { forall i :: 0 <= i < |s| ==> IsGraphic(s[i]) || IsWhitespace(s[i]) }

  /** Visible text wraps to printable lines: the only whitespace left is the single space. */
  lemma WrappedIsPrintable(value: Ascii, width: nat, k: nat)
    requires width >= 1 && k < |Wrapped(value, width)| && IsLayoutText(value)
    ensures AllPrintable(Wrapped(value, width)[k])
  {
    var lines := Wrapped(value, width);
    var line := lines[k];
    WrappedLinesFitAndAreStable(value, width, k);
    forall i | 0 <= i < |line| ensures IsPrintable(line[i]) {
      if !IsWhitespace(line[i]) {
        InkMember(line, line[i]);
        InkOfMember(lines, k, line[i]);
        WrappingConservesInk(value, width);
        InkMember(value, line[i]);
      }
    }
  }

  // ---------- The laws that determine the wrapping ----------

  ghost function Behind(lines: seq<Ascii>, f: Fill): Fill { Fill(lines + f.lines, f.current) }

  lemma {:induction false} PlaceCharsBehind(lines: seq<Ascii>, f: Fill, word: Ascii, width: nat)
    ensures PlaceChars(Behind(lines, f), word, width) == Behind(lines, PlaceChars(f, word, width))
    decreases |word|
  {
    if word != [] {
      var g := PlaceChar(f, word[0], width);
      assert PlaceChar(Behind(lines, f), word[0], width) == Behind(lines, g) by {
        assert lines + f.lines + [f.current] == lines + (f.lines + [f.current]);
      }
      PlaceCharsBehind(lines, g, word[1..], width);
    }
  }

  lemma FlushBehind(lines: seq<Ascii>, f: Fill)
    ensures Flush(Behind(lines, f)) == Behind(lines, Flush(f))
  {
    assert lines + f.lines + [f.current] == lines + (f.lines + [f.current]);
  }

  lemma PlaceWordBehind(lines: seq<Ascii>, f: Fill, word: Ascii, width: nat)
    ensures PlaceWord(Behind(lines, f), word, width) == Behind(lines, PlaceWord(f, word, width))
  {
    FlushBehind(lines, f);
    var g := if |f.current| + (if f.current == [] then 0 else 1) + |word| > width then Flush(f) else f;
    FlushBehind(lines, g);
    PlaceCharsBehind(lines, Flush(g), word, width);
  }

  lemma {:induction false} PlaceWordsBehind(lines: seq<Ascii>, f: Fill, words: seq<Ascii>, width: nat)
    ensures PlaceWords(Behind(lines, f), words, width) == Behind(lines, PlaceWords(f, words, width))
    decreases |words|
  {
    if words != [] {
      hide PlaceWord, Behind;
      PlaceWordBehind(lines, f, words[0], width);
      PlaceWordsBehind(lines, PlaceWord(f, words[0], width), words[1..], width);
    }
  }

  lemma PlaceLineBehind(lines: seq<Ascii>, source: Ascii, width: nat)
    ensures PlaceLine(lines, source, width) == lines + PlaceLine([], source, width)
  {
    if source != [] {
      assert Fill(lines, []) == Behind(lines, Fill([], [])) by {
        assert lines + [] == lines;
      }
      PlaceWordsBehind(lines, Fill([], []), Words(source), width);
      FlushBehind(lines, PlaceWords(Fill([], []), Words(source), width));
    } else {
      var none: seq<Ascii> := [];
      assert none + [[]] == [[]];
    }
  }

  lemma {:induction false} PlaceLinesBehind(lines: seq<Ascii>, sources: seq<Ascii>, width: nat)
    ensures PlaceLines(lines, sources, width) == lines + PlaceLines([], sources, width)
    decreases |sources|
  {
    hide PlaceLine;
    if sources == [] {
      assert lines + [] == lines;
    } else {
      var first := PlaceLine([], sources[0], width);
      PlaceLineBehind(lines, sources[0], width);
      PlaceLinesBehind(lines + first, sources[1..], width);
      PlaceLinesBehind(first, sources[1..], width);
      assert lines + first + PlaceLines([], sources[1..], width) == lines + (first + PlaceLines([], sources[1..], width));
    }
  }

  lemma {:induction false} PlaceLinesAppends(lines: seq<Ascii>, a: seq<Ascii>, b: seq<Ascii>, width: nat)
    ensures PlaceLines(lines, a + b, width) == PlaceLines(PlaceLines(lines, a, width), b, width)
    decreases |a|
  {
    hide PlaceLine;
    if a == [] {
      assert a + b == b;
    } else {
      assert (a + b)[0] == a[0] && (a + b)[1..] == a[1..] + b;
      PlaceLinesAppends(PlaceLine(lines, a[0], width), a[1..], b, width);
    }
  }

  lemma SplitFirst(b: byte, rest: Ascii)
    ensures SplitLines([b] + rest)
         == if b == NEWLINE then [[]] + SplitLines(rest) else [[b] + SplitLines(rest)[0]] + SplitLines(rest)[1..]
  {
    assert ([b] + rest)[1..] == rest;
  }

  lemma {:induction false} SplitAtNewline(a: Ascii, b: Ascii)
    ensures SplitLines(a + [NEWLINE] + b) == SplitLines(a) + SplitLines(b)
    decreases |a|
  {
    hide SplitLines;
    if a == [] {
      assert a + [NEWLINE] + b == [NEWLINE] + b;
      SplitFirst(NEWLINE, b);
      SplitNothing();
    } else {
      SplitAtNewline(a[1..], b);
      assert a + [NEWLINE] + b == [a[0]] + (a[1..] + [NEWLINE] + b) && [a[0]] + a[1..] == a;
      SplitFirst(a[0], a[1..] + [NEWLINE] + b);
      SplitFirst(a[0], a[1..]);
    }
  }

  lemma SplitNothing()
    ensures SplitLines([]) == [[]]
  {
  }

  /** A newline always ends a line: the parts on both sides wrap on their own. */
  lemma {:induction false} NewlinesBreak(a: Ascii, b: Ascii, width: nat)
    ensures Wrapped(a + [NEWLINE] + b, width) == Wrapped(a, width) + Wrapped(b, width)
  {
    hide PlaceLines, SplitLines;
    SplitAtNewline(a, b);
    PlaceLinesAppends([], SplitLines(a), SplitLines(b), width);
    PlaceLinesBehind(PlaceLines([], SplitLines(a), width), SplitLines(b), width);
  }

  /** A word cut into segments of the full width, the last one excepted. */
  function Segments(word: Ascii, width: nat): seq<Ascii>
    requires width >= 1
  {
    if |word| <= width then [word] else [word[..width]] + Segments(word[width..], width)
  }

  /** One more word: on the last line behind a space if it fits there, on lines of its own otherwise. */
  function WithWord(lines: seq<Ascii>, word: Ascii, width: nat): seq<Ascii>
    requires width >= 1
  {
    if lines != [] && |lines[|lines| - 1]| + 1 + |word| <= width
    then lines[..|lines| - 1] + [lines[|lines| - 1] + [SPACE] + word]
    else lines + Segments(word, width)
  }

  /** Placing characters fills the line up and goes on in full segments. */
  lemma {:induction false} PlaceCharsSegments(lines: seq<Ascii>, current: Ascii, word: Ascii, width: nat)
    requires width >= 1 && |current| <= width && current + word != []
    ensures Flush(PlaceChars(Fill(lines, current), word, width)).lines == lines + Segments(current + word, width)
    ensures PlaceChars(Fill(lines, current), word, width).current != []
    decreases |word|
  {
    if word == [] {
      assert current + word == current;
    } else if |current| + 1 > width {
      PlaceCharsSegments(lines + [current], [word[0]], word[1..], width);
      assert [word[0]] + word[1..] == word;
      assert (current + word)[..width] == current && (current + word)[width..] == word;
      assert lines + [current] + Segments(word, width) == lines + ([current] + Segments(word, width));
    } else {
      PlaceCharsSegments(lines, current + [word[0]], word[1..], width);
      assert current + [word[0]] + word[1..] == current + word;
    }
  }

  lemma PlaceWordExtends(f: Fill, word: Ascii, width: nat)
    requires width >= 1 && word != [] && (f.current == [] ==> f.lines == [])
    ensures var g := PlaceWord(f, word, width);
      g.current != [] && Flush(g).lines == WithWord(Flush(f).lines, word, width)
  {
    hide PlaceChars;
    var lines := Flush(f).lines;
    if |word| > width {
      PlaceCharsSegments(lines, [], word, width);
      assert [] + word == word;
    } else if f.current != [] {
      assert lines[..|lines| - 1] == f.lines && lines[|lines| - 1] == f.current;
    }
  }

  lemma {:induction false} PlaceWordsEnd(f: Fill, words: seq<Ascii>, word: Ascii, width: nat)
    ensures PlaceWords(f, words + [word], width) == PlaceWord(PlaceWords(f, words, width), word, width)
    decreases |words|
  {
    hide PlaceWord;
    if words == [] {
      assert words + [word] == [word] && [word][1..] == [];
    } else {
      assert (words + [word])[0] == words[0] && (words + [word])[1..] == words[1..] + [word];
      PlaceWordsEnd(PlaceWord(f, words[0], width), words[1..], word, width);
    }
  }

  /** Once a word is placed the current line is not empty. */
  lemma {:induction false} CurrentIsOpen(words: seq<Ascii>, width: nat)
    requires width >= 1 && forall i :: 0 <= i < |words| ==> words[i] != []
    ensures var f := PlaceWords(Fill([], []), words, width); f.current == [] ==> f.lines == []
    decreases |words|
  {
    if words != [] {
      var front, last := words[..|words| - 1], words[|words| - 1];
      assert words == front + [last];
      CurrentIsOpen(front, width);
      PlaceWordsEnd(Fill([], []), front, last, width);
      PlaceWordExtends(PlaceWords(Fill([], []), front, width), last, width);
    }
  }

  lemma {:induction false} WordsBeforeBlank(text: Ascii, c: byte, rest: Ascii)
    requires IsWhitespace(c)
    ensures Words(text + [c] + rest) == Words(text) + Words(rest)
    decreases |text|
  {
    var all := text + [c] + rest;
    if text == [] {
      assert all == [c] + rest && all[1..] == rest;
      assert [] + Words(rest) == Words(rest);
    } else if IsWhitespace(text[0]) {
      assert all[1..] == text[1..] + [c] + rest;
      WordsBeforeBlank(text[1..], c, rest);
    } else {
      var n := WordLength(text);
      WordStays(text, c, rest);
      assert all[..n] == text[..n] && all[n..] == text[n..] + [c] + rest;
      WordsBeforeBlank(text[n..], c, rest);
      assert [text[..n]] + (Words(text[n..]) + Words(rest)) == [text[..n]] + Words(text[n..]) + Words(rest);
    }
  }

  lemma {:induction false} WordStays(text: Ascii, c: byte, rest: Ascii)
    requires IsWhitespace(c)
    ensures WordLength(text + [c] + rest) == WordLength(text)
  {
    var all := text + [c] + rest;
    assert forall i :: 0 <= i < |text| ==> all[i] == text[i];
    assert all[|text|] == c;
  }

  /** The lines of a text without newlines, none for the empty text. */
  function LinesOf(text: Ascii, width: nat): seq<Ascii> { if text == [] then [] else Wrapped(text, width) }

  lemma LinesOfWords(text: Ascii, width: nat)
    requires NEWLINE !in text
    ensures LinesOf(text, width) == Flush(PlaceWords(Fill([], []), Words(text), width)).lines
  {
    if text != [] {
      WrappedOneLine(text, width);
    }
  }

  /**
   The greedy law. Behind a blank the next word goes on the last line if it fits there with one space, and on lines
   of its own otherwise, cut into full segments if it is too long; blanks at the end change nothing. Together with
   `NewlinesBreak` and the empty text, which is one blank line, this determines the wrapping of every text.
   */
  lemma {:induction false} WrappingIsGreedy(text: Ascii, c: byte, word: Ascii, width: nat)
    requires width >= 1 && NEWLINE !in text && IsWhitespace(c) && c != NEWLINE && IsWord(word)
    ensures Wrapped(text + [c] + word, width) == WithWord(LinesOf(text, width), word, width)
    ensures Wrapped(text + [c], width) == LinesOf(text, width)
    ensures Wrapped(word, width) == Segments(word, width)
    ensures Wrapped([], width) == [[]]
  {
    hide Wrapped, Words, PlaceWords, IsWord;
    WordHasNoNewline(word);
    WordsBeforeBlank(text, c, word);
    WordsBeforeBlank(text, c, []);
    OneWord(word);
    assert text + [c] + [] == text + [c];
    assert Words(text) + [] == Words(text);
    LinesOfWords(text + [c] + word, width);
    LinesOfWords(text + [c], width);
    LinesOfWords(text, width);
    LinesOfWords(word, width);
    OpenAfter(text, width);
    PlaceWordsEnd(Fill([], []), Words(text), word, width);
    PlaceWordExtends(PlaceWords(Fill([], []), Words(text), width), word, width);
    FirstWordAlone(word, width);
    EmittedIsStable([], width);
  }

  lemma OpenAfter(text: Ascii, width: nat)
    requires width >= 1
    ensures var f := PlaceWords(Fill([], []), Words(text), width); f.current == [] ==> f.lines == []
  {
    CurrentIsOpen(Words(text), width);
  }

  lemma FirstWordAlone(word: Ascii, width: nat)
    requires width >= 1 && word != []
    ensures Flush(PlaceWords(Fill([], []), [word], width)).lines == Segments(word, width)
  {
    assert [word][1..] == [];
    PlaceWordExtends(Fill([], []), word, width);
    assert [] + Segments(word, width) == Segments(word, width);
  }

  lemma WordHasNoNewline(word: Ascii)
    requires IsWord(word)
    ensures NEWLINE !in word && word != []
  {
  }

  lemma OneWord(word: Ascii)
    requires IsWord(word)
    ensures Words(word) == [word] && Words([]) == []
  {
    assert WordLength(word) == |word|;
    WholeWord(word);
  }
}
