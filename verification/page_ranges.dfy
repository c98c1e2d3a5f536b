/** Page-range expressions such as `1-3,5`: their syntax, and the pages they select. */
module PageRanges {
  import opened Results

  const MAX_PAGE_RANGE_BYTES: nat := 256

  datatype Problem = BadLength | Malformed | ZeroPage | Descending | PageBeyondDocument(page: nat)
  {
    function Answer(): Result<seq<nat>, Problem> { Err(this) }
  }

  datatype Range = Range(start: nat, end: nat)

  // ---------- Syntax ----------

  /** The pieces between separators; there is always at least one. */
  function Split(s: string, separator: char): (parts: seq<string>)
    ensures parts != []
  {
    if s == [] then [[]]
    else
      var rest := Split(s[1..], separator);
      if s[0] == separator then [[]] + rest else [[s[0]] + rest[0]] + rest[1..]
  }

  /** What stands before and after the first separator, if there is one. */
  function SplitOnce(s: string, separator: char): Option<(string, string)> {
    if s == [] then None
    else if s[0] == separator then Some(([], s[1..]))
    else
      match SplitOnce(s[1..], separator)
      case None => None
      case Some((before, after)) => Some(([s[0]] + before, after))
  }

  /** The first dash separates the ends; without one both are the part itself. */
  function Ends(part: string): (string, string) {
    match SplitOnce(part, '-') case None => (part, part) case Some(ends) => ends
  }

  predicate IsDigit(c: char) { '0' <= c <= '9' }

  function Number(digits: string): nat
    requires forall i :: 0 <= i < |digits| ==> IsDigit(digits[i])
  {
    if digits == [] then 0
    else
      assert IsDigit(digits[|digits| - 1]);
      10 * Number(digits[..|digits| - 1]) + (digits[|digits| - 1] as int - '0' as int)
  }

  function PageNumber(value: string): Result<nat, Problem> {
    if value == [] || |value| > 5 || !(forall i :: 0 <= i < |value| ==> IsDigit(value[i])) then Err(Malformed)
    else if Number(value) == 0 then Err(ZeroPage)
    else Ok(Number(value))
  }

  function ParseRange(part: string): (r: Result<Range, Problem>)
    ensures r.Ok? ==> 1 <= r.value.start <= r.value.end
  {
    var (first, last) := Ends(part);
    match PageNumber(first)
    case Err(e) => Err(e)
    case Ok(start) =>
      match PageNumber(last)
      case Err(e) => Err(e)
      case Ok(end) => if start > end then Err(Descending) else Ok(Range(start, end))
  }

  predicate IsRange(part: string) { ParseRange(part).Ok? }

  /** What a page-range expression must look like. */
  predicate WellFormed(s: string) {
    0 < |s| <= MAX_PAGE_RANGE_BYTES && forall i :: 0 <= i < |Split(s, ',')| ==> IsRange(Split(s, ',')[i])
  }

  /** The first problem, part by part. */
  function FirstProblem(parts: seq<string>): (p: Option<Problem>)
    ensures p.None? <==> forall i :: 0 <= i < |parts| ==> IsRange(parts[i])
  {
    if parts == [] then None
    else if ParseRange(parts[0]).Err? then Some(ParseRange(parts[0]).error)
    else FirstProblem(parts[1..])
  }

  function ValidatePageRanges(s: string): (p: Option<Problem>)
    ensures p.None? <==> WellFormed(s)
  {
    if s == [] || |s| > MAX_PAGE_RANGE_BYTES then Some(BadLength) else FirstProblem(Split(s, ','))
  }

  function RangesOf(s: string): (ranges: seq<Range>)
    requires WellFormed(s)
    ensures |ranges| == |Split(s, ',')|
    ensures forall i :: 0 <= i < |ranges| ==> 1 <= ranges[i].start <= ranges[i].end
  {
    var parts := Split(s, ',');
    seq(|parts|, i requires 0 <= i < |parts| => assert IsRange(parts[i]); ParseRange(parts[i]).value)
  }

  // ---------- Selection ----------

  predicate Covers(r: Range, page: nat) { r.start <= page <= r.end }

  /** The zero-based page is inside one of the ranges. */
  ghost predicate Selected(ranges: seq<Range>, index: nat) {
    exists i :: 0 <= i < |ranges| && Covers(ranges[i], index + 1)
  }

  ghost predicate StrictlyIncreasing(s: seq<nat>) { forall i, j :: 0 <= i < j < |s| ==> s[i] < s[j] }

  /** The pages in document order, without repetition, and exactly the selected ones. */
  ghost predicate IsSelection(pages: seq<nat>, ranges: seq<Range>, count: nat) {
    StrictlyIncreasing(pages) && forall p: nat :: p in pages <==> p < count && Selected(ranges, p)
  }

  lemma LastIsLargest(s: seq<nat>)
    requires StrictlyIncreasing(s) && s != []
    ensures var last, rest := s[|s| - 1], s[..|s| - 1];
      && last in s && StrictlyIncreasing(rest) && s == rest + [last]
      && forall p: nat :: (p in s ==> p <= last) && (p in rest <==> p in s && p != last)
  {
    var last, rest := s[|s| - 1], s[..|s| - 1];
    assert s == rest + [last];
    assert forall i :: 0 <= i < |rest| ==> rest[i] < last;
  }

  /** Those properties determine the selection. */
  lemma {:induction false} SelectionIsUnique(a: seq<nat>, b: seq<nat>)
    requires StrictlyIncreasing(a) && StrictlyIncreasing(b) && forall p: nat :: p in a <==> p in b
    ensures a == b
    decreases |a|
  {
    if a != [] {
      LastIsLargest(a);
    }
    if b != [] {
      LastIsLargest(b);
    }
    hide StrictlyIncreasing;
    if a != [] && b != [] {
      assert a[|a| - 1] == b[|b| - 1];
      SelectionIsUnique(a[..|a| - 1], b[..|b| - 1]);
    }
  }

  lemma AllSelected(all: seq<nat>, count: nat)
    requires all == seq(count, i => i)
    ensures IsSelection(all, [Range(1, count)], count)
  {
    forall p: nat ensures p in all <==> p < count && Selected([Range(1, count)], p) {
      if p < count {
        assert all[p] == p && Covers([Range(1, count)][0], p + 1);
      }
    }
  }

  lemma OneMoreRange(ranges: seq<Range>, k: nat)
    requires k < |ranges|
    ensures forall p: nat :: Selected(ranges[..k + 1], p) <==> Selected(ranges[..k], p) || Covers(ranges[k], p + 1)
  {
    forall p: nat
      ensures Selected(ranges[..k + 1], p) <==> Selected(ranges[..k], p) || Covers(ranges[k], p + 1)
    {
      if Selected(ranges[..k], p) {
        var i :| 0 <= i < k && Covers(ranges[..k][i], p + 1);
        assert Covers(ranges[..k + 1][i], p + 1);
      }
      if Covers(ranges[k], p + 1) {
        assert Covers(ranges[..k + 1][k], p + 1);
      }
      if Selected(ranges[..k + 1], p) && !Covers(ranges[k], p + 1) {
        var i :| 0 <= i < k + 1 && Covers(ranges[..k + 1][i], p + 1);
        assert Covers(ranges[..k][i], p + 1);
      }
    }
  }

  lemma FirstPageSelected(ranges: seq<Range>)
    requires ranges != [] && 1 <= ranges[0].start <= ranges[0].end
    ensures Selected(ranges, ranges[0].start - 1)
  {
    assert Covers(ranges[0], ranges[0].start);
  }

  lemma NothingSelected(ranges: seq<Range>)
    ensures forall p: nat :: !Selected(ranges[..0], p)
    ensures ranges[..|ranges|] == ranges
  {
  }

  method MarkPages(selected: array<bool>, r: Range)
    requires 1 <= r.start && r.end <= selected.Length
    modifies selected
    ensures forall p: nat :: p < selected.Length ==> (selected[p] <==> old(selected[p]) || Covers(r, p + 1))
  {
    var page := r.start;
    while page <= r.end
      invariant r.start <= page && (r.start <= r.end ==> page <= r.end + 1)
      invariant forall p: nat :: p < selected.Length ==> (selected[p] <==> old(selected[p]) || (Covers(r, p + 1) && p + 1 < page))
    {
      selected[page - 1] := true;
      page := page + 1;
    }
  }

  method MarkedPages(selected: array<bool>) returns (pages: seq<nat>)
    ensures StrictlyIncreasing(pages)
    ensures forall p: nat :: p in pages <==> p < selected.Length && selected[p]
  {
    pages := [];
    for index := 0 to selected.Length
      invariant StrictlyIncreasing(pages)
      invariant forall p: nat :: p in pages <==> p < index && selected[p]
    {
      if selected[index] {
        assert forall i :: 0 <= i < |pages| ==> pages[i] in pages;
        pages := pages + [index];
      }
    }
  }

  /**
   Marks every page of every part, then lists the marked ones. It succeeds exactly when the expression
   is well formed and names no page beyond the document.
   */
  method ResolvePageSelection(ranges: Option<string>, count: nat) returns (r: Result<seq<nat>, Problem>)
    ensures ranges.None? ==> r.Ok? && IsSelection(r.value, [Range(1, count)], count)
    ensures ranges.Some? ==>
      (r.Ok? <==> WellFormed(ranges.value) && forall i :: 0 <= i < |RangesOf(ranges.value)| ==> RangesOf(ranges.value)[i].end <= count)
    ensures ranges.Some? && r.Ok? ==> IsSelection(r.value, RangesOf(ranges.value), count) && r.value != []
    ensures ranges.Some? && !WellFormed(ranges.value) ==> r == ValidatePageRanges(ranges.value).value.Answer()
    ensures ranges.Some? && WellFormed(ranges.value) && r.Err? ==> exists k: nat :: FirstBeyond(RangesOf(ranges.value), count, k, r.error)
  {
    if ranges.None? {
      var all := seq(count, i => i);
      AllSelected(all, count);
      return Ok(all);
    }
    hide IsRange, Split, RangesOf, WellFormed, Selected, FirstBeyond;
    var problem := ValidatePageRanges(ranges.value);
    if problem.Some? {
      return Err(problem.value);
    }
    r := SelectPages(RangesOf(ranges.value), count);
  }

  /** Range k is the first to end beyond the document, and the error names its end. */
  ghost predicate FirstBeyond(parts: seq<Range>, count: nat, k: nat, error: Problem) {
    k < |parts| && parts[k].end > count && error == PageBeyondDocument(parts[k].end) && forall j :: 0 <= j < k ==> parts[j].end <= count
  }

  method SelectPages(parts: seq<Range>, count: nat) returns (r: Result<seq<nat>, Problem>)
    requires parts != [] && forall i :: 0 <= i < |parts| ==> 1 <= parts[i].start <= parts[i].end
    ensures r.Ok? <==> forall i :: 0 <= i < |parts| ==> parts[i].end <= count
    ensures r.Ok? ==> IsSelection(r.value, parts, count) && r.value != []
    ensures r.Err? ==> exists k: nat :: FirstBeyond(parts, count, k, r.error)
  {
    hide Selected, StrictlyIncreasing;
    NothingSelected(parts);
    var selected := new bool[count](_ => false);
    for k := 0 to |parts|
      invariant forall i :: 0 <= i < k ==> parts[i].end <= count
      invariant forall p: nat :: p < count ==> (selected[p] <==> Selected(parts[..k], p))
    {
      if parts[k].end > count {
        assert FirstBeyond(parts, count, k, PageBeyondDocument(parts[k].end));
        return Err(PageBeyondDocument(parts[k].end));
      }
      MarkPages(selected, parts[k]);
      OneMoreRange(parts, k);
    }
    var pages := MarkedPages(selected);
    FirstPageSelected(parts);
    r := Ok(pages);
  }

  // ---------- Order and repetition do not matter ----------

  /** Two well-formed expressions with the same parts, in any order and number, select the same pages. */
  lemma SamePartsSameSelection(s: string, t: string, count: nat, a: seq<nat>, b: seq<nat>)
    requires WellFormed(s) && WellFormed(t)
    requires forall part :: part in Split(s, ',') <==> part in Split(t, ',')
    requires IsSelection(a, RangesOf(s), count) && IsSelection(b, RangesOf(t), count)
    ensures a == b
  {
    forall p: nat ensures Selected(RangesOf(s), p) <==> Selected(RangesOf(t), p) {
      SelectedAlike(s, t, p);
      SelectedAlike(t, s, p);
    }
    hide RangesOf, Split, WellFormed;
    SelectionIsUnique(a, b);
  }

  lemma SelectedAlike(s: string, t: string, p: nat)
    requires WellFormed(s) && WellFormed(t)
    requires forall part :: part in Split(s, ',') ==> part in Split(t, ',')
    ensures Selected(RangesOf(s), p) ==> Selected(RangesOf(t), p)
  {
    hide Split, ParseRange;
    if Selected(RangesOf(s), p) {
      var i :| 0 <= i < |RangesOf(s)| && Covers(RangesOf(s)[i], p + 1);
      assert Split(s, ',')[i] in Split(s, ',');
      var j :| 0 <= j < |Split(t, ',')| && Split(t, ',')[j] == Split(s, ',')[i];
      assert Covers(RangesOf(t)[j], p + 1);
    }
  }

  // ---------- Every list of ranges can be written down ----------

  function DigitOf(d: nat): char
    requires d < 10
  {
    ('0' as int + d) as char
  }

  function Digits(n: nat): (s: string)
    ensures s != [] && forall i :: 0 <= i < |s| ==> IsDigit(s[i])
  {
    if n < 10 then [DigitOf(n)] else Digits(n / 10) + [DigitOf(n % 10)]
  }

  lemma {:induction false} DigitsRead(n: nat)
    ensures Number(Digits(n)) == n
  {
    if n >= 10 {
      DigitsRead(n / 10);
      assert Digits(n)[..|Digits(n)| - 1] == Digits(n / 10);
    } else {
      assert Digits(n)[..0] == [];
    }
  }

  lemma FiveDigits(n: nat)
    requires n < 100_000
    ensures |Digits(n)| <= 5
  {
    assert |Digits(n / 10_000)| == 1;
    if n >= 10_000 {
      assert n / 1_000 / 10 == n / 10_000 && n / 100 / 10 == n / 1_000 && n / 10 / 10 == n / 100;
      assert |Digits(n / 1_000)| == 2 && |Digits(n / 100)| == 3 && |Digits(n / 10)| == 4;
    }
  }

  function RangeText(r: Range): string { Digits(r.start) + ['-'] + Digits(r.end) }

  predicate Printable(r: Range) { 1 <= r.start <= r.end < 100_000 }

  lemma {:induction false} SplitsAtSeparator(before: string, after: string, separator: char)
    requires separator !in before
    ensures SplitOnce(before + [separator] + after, separator) == Some((before, after))
    ensures Split(before + [separator] + after, separator) == [before] + Split(after, separator)
  {
    var s := before + [separator] + after;
    if before == [] {
      assert s[1..] == after;
    } else {
      assert s[1..] == before[1..] + [separator] + after;
      SplitsAtSeparator(before[1..], after, separator);
      assert [before[0]] + before[1..] == before;
      assert ([before[1..]] + Split(after, separator))[1..] == Split(after, separator);
    }
  }

  lemma {:induction false} NothingToSplit(s: string, separator: char)
    requires separator !in s
    ensures Split(s, separator) == [s]
  {
    if s != [] {
      NothingToSplit(s[1..], separator);
      assert [s[0]] + s[1..] == s;
    }
  }

  lemma RangeReads(r: Range)
    requires Printable(r)
    ensures ParseRange(RangeText(r)) == Ok(r) && ',' !in RangeText(r)
  {
    SplitsAtSeparator(Digits(r.start), Digits(r.end), '-');
    DigitsRead(r.start);
    DigitsRead(r.end);
    FiveDigits(r.start);
    FiveDigits(r.end);
    hide Number, Digits;
  }

  function Written(ranges: seq<Range>): string
    requires ranges != []
  {
    if |ranges| == 1 then RangeText(ranges[0]) else RangeText(ranges[0]) + [','] + Written(ranges[1..])
  }

  lemma {:induction false} WrittenParts(ranges: seq<Range>)
    requires ranges != [] && forall i :: 0 <= i < |ranges| ==> Printable(ranges[i])
    ensures |Split(Written(ranges), ',')| == |ranges|
    ensures forall i :: 0 <= i < |ranges| ==> ParseRange(Split(Written(ranges), ',')[i]) == Ok(ranges[i])
  {
    hide ParseRange, RangeText, Printable;
    RangeReads(ranges[0]);
    if |ranges| == 1 {
      NothingToSplit(RangeText(ranges[0]), ',');
    } else {
      WrittenParts(ranges[1..]);
      SplitsAtSeparator(RangeText(ranges[0]), Written(ranges[1..]), ',');
    }
  }

  /** Any list of ascending ranges of pages below 100000 that fits the length limit is read back as it was written. */
  lemma WrittenRangesReadBack(ranges: seq<Range>)
    requires ranges != [] && |Written(ranges)| <= MAX_PAGE_RANGE_BYTES
    requires forall i :: 0 <= i < |ranges| ==> Printable(ranges[i])
    ensures WellFormed(Written(ranges)) && RangesOf(Written(ranges)) == ranges
  {
    WrittenParts(ranges);
    assert Written(ranges) != [];
    hide ParseRange, Split;
    assert RangesOf(Written(ranges)) == ranges;
  }

  // ---------- The grammar ----------

  /** A page number, or two with a dash between them. */
  datatype Piece = Single(page: string) | Span(first: string, last: string)
  {
    function Text(): string { match this case Single(page) => page case Span(first, last) => first + ['-'] + last }
    function First(): string { match this case Single(page) => page case Span(first, _) => first }
    function Last(): string { match this case Single(page) => page case Span(_, last) => last }
  }

  ghost predicate Decimal(s: string) { forall i :: 0 <= i < |s| ==> '0' <= s[i] <= '9' }

  /** Each digit more multiplies by ten and adds its value. */
  lemma NumberAppends(s: string, d: nat)
    requires Decimal(s) && d < 10
    ensures var c := ('0' as int + d) as char;
      Decimal(s + [c]) && (forall i :: 0 <= i < |s| ==> IsDigit(s[i])) && (forall i :: 0 <= i < |s + [c]| ==> IsDigit((s + [c])[i]))
      && Number(s + [c]) == 10 * Number(s) + d && Number("") == 0
  {
    var t := s + [('0' as int + d) as char];
    assert t[..|t| - 1] == s;
  }

  /** One to five digits that denote a positive number. */
  ghost predicate PageNumeral(s: string, n: nat) { 1 <= |s| <= 5 && Decimal(s) && n > 0 && n == Number(s) }

  ghost predicate GoodPiece(p: Piece, r: Range) {
    PageNumeral(p.First(), r.start) && PageNumeral(p.Last(), r.end) && r.start <= r.end
  }

  function Joined(pieces: seq<Piece>): string
    requires pieces != []
  {
    if |pieces| == 1 then pieces[0].Text() else pieces[0].Text() + [','] + Joined(pieces[1..])
  }

  lemma PageNumberIs(s: string)
    ensures PageNumber(s).Ok? <==> exists n: nat :: PageNumeral(s, n)
    ensures PageNumber(s).Ok? ==> PageNumeral(s, PageNumber(s).value)
    ensures PageNumber(s) == Err(ZeroPage) <==> 1 <= |s| <= 5 && Decimal(s) && Number(s) == 0
  {
    DecimalIsDigits(s);
    hide Number, Decimal;
    if PageNumber(s).Ok? {
      assert PageNumeral(s, PageNumber(s).value);
    }
  }

  lemma DecimalIsDigits(s: string)
    ensures Decimal(s) <==> forall i :: 0 <= i < |s| ==> IsDigit(s[i])
  {
  }

  lemma DashFree(s: string, n: nat)
    requires PageNumeral(s, n)
    ensures '-' !in s && ',' !in s
  {
    hide Number;
  }

  lemma FirstCharacter(s: string, before: string, separator: char, after: string)
    requires s != [] && s[1..] == before + [separator] + after
    ensures s == ([s[0]] + before) + [separator] + after
  {
    assert s == [s[0]] + s[1..];
  }

  lemma SplitOnceAt(s: string, separator: char)
    ensures SplitOnce(s, separator).None? <==> separator !in s
    ensures SplitOnce(s, separator).Some? ==>
      var (before, after) := SplitOnce(s, separator).value; s == before + [separator] + after && separator !in before
  {
    if s == [] {
    } else if s[0] == separator {
      assert s == [] + [separator] + s[1..];
    } else {
      SplitOnceAt(s[1..], separator);
      assert separator in s <==> separator in s[1..];
      match SplitOnce(s[1..], separator) {
        case None =>
        case Some((before, after)) => FirstCharacter(s, before, separator, after);
      }
    }
  }

  function PieceOf(part: string): Piece {
    match SplitOnce(part, '-') case None => Single(part) case Some((first, last)) => Span(first, last)
  }

  lemma PieceOfIs(part: string)
    ensures PieceOf(part).Text() == part && Ends(part) == (PieceOf(part).First(), PieceOf(part).Last())
  {
    SplitOnceAt(part, '-');
    hide SplitOnce;
  }

  lemma GoodPart(part: string)
    requires IsRange(part)
    ensures GoodPiece(PieceOf(part), ParseRange(part).value)
  {
    PieceOfIs(part);
    PageNumberIs(PieceOf(part).First());
    PageNumberIs(PieceOf(part).Last());
    hide PageNumber, SplitOnce, PageNumeral, PieceOf;
  }

  lemma GoodPieceReads(p: Piece, r: Range)
    requires GoodPiece(p, r)
    ensures ParseRange(p.Text()) == Ok(r) && ',' !in p.Text()
  {
    DashFree(p.First(), r.start);
    DashFree(p.Last(), r.end);
    PageNumberIs(p.First());
    PageNumberIs(p.Last());
    match p {
      case Single(page) => SplitOnceAt(page, '-');
      case Span(first, last) => SplitsAtSeparator(first, last, '-');
    }
    hide PageNumber, SplitOnce, Number, Decimal;
  }

  lemma {:induction false} JoinedReads(pieces: seq<Piece>, ranges: seq<Range>)
    requires pieces != [] && |pieces| == |ranges| && forall i :: 0 <= i < |pieces| ==> GoodPiece(pieces[i], ranges[i])
    ensures |Split(Joined(pieces), ',')| == |pieces|
    ensures forall i :: 0 <= i < |pieces| ==> ParseRange(Split(Joined(pieces), ',')[i]) == Ok(ranges[i])
  {
    hide ParseRange, GoodPiece;
    GoodPieceReads(pieces[0], ranges[0]);
    if |pieces| == 1 {
      NothingToSplit(pieces[0].Text(), ',');
    } else {
      JoinedReads(pieces[1..], ranges[1..]);
      SplitsAtSeparator(pieces[0].Text(), Joined(pieces[1..]), ',');
    }
  }

  function PiecesOf(parts: seq<string>): seq<Piece> { seq(|parts|, i requires 0 <= i < |parts| => PieceOf(parts[i])) }

  function JoinedTexts(parts: seq<string>): string
    requires parts != []
  {
    if |parts| == 1 then parts[0] else parts[0] + [','] + JoinedTexts(parts[1..])
  }

  lemma {:induction false} SplitJoins(s: string)
    ensures JoinedTexts(Split(s, ',')) == s
  {
    if s != [] {
      var rest := Split(s[1..], ',');
      SplitJoins(s[1..]);
      assert s == [s[0]] + s[1..];
      if s[0] == ',' {
        assert ([[]] + rest)[1..] == rest;
      } else {
        LongerFirst(s[0], rest);
      }
    }
  }

  lemma LongerFirst(c: char, rest: seq<string>)
    requires rest != []
    ensures JoinedTexts([[c] + rest[0]] + rest[1..]) == [c] + JoinedTexts(rest)
  {
    var longer := [[c] + rest[0]] + rest[1..];
    if |rest| > 1 {
      assert longer[1..] == rest[1..];
      assert [c] + (rest[0] + [','] + JoinedTexts(rest[1..])) == [c] + rest[0] + [','] + JoinedTexts(rest[1..]);
    }
  }

  lemma {:induction false} PiecesJoin(parts: seq<string>)
    requires parts != []
    ensures Joined(PiecesOf(parts)) == JoinedTexts(parts)
  {
    hide PieceOf;
    PieceOfIs(parts[0]);
    if |parts| > 1 {
      PiecesJoin(parts[1..]);
      assert PiecesOf(parts)[1..] == PiecesOf(parts[1..]);
    }
  }

  /** The ranges are what these pieces say, in order. */
  ghost predicate SaysRanges(pieces: seq<Piece>, ranges: seq<Range>) {
    pieces != [] && |pieces| == |ranges| && forall i :: 0 <= i < |pieces| ==> GoodPiece(pieces[i], ranges[i])
  }

  /**
   The expressions accepted are one to 256 bytes of page numbers and ascending spans separated by commas, each number
   of one to five digits and positive; and the ranges read are the ones written.
   */
  lemma {:induction false} WellFormedIff(s: string)
    ensures WellFormed(s) <==> 1 <= |s| <= 256 && exists pieces, ranges :: SaysRanges(pieces, ranges) && s == Joined(pieces)
    ensures forall pieces, ranges :: WellFormed(s) && SaysRanges(pieces, ranges) && s == Joined(pieces) ==> RangesOf(s) == ranges
  {
    hide Split, ParseRange, GoodPiece;
    if WellFormed(s) {
      var parts, ranges := Split(s, ','), RangesOf(s);
      SplitJoins(s);
      PiecesJoin(parts);
      forall i | 0 <= i < |parts| ensures GoodPiece(PiecesOf(parts)[i], ranges[i]) {
        GoodPart(parts[i]);
      }
      assert SaysRanges(PiecesOf(parts), ranges);
    }
    forall pieces, ranges | SaysRanges(pieces, ranges) && s == Joined(pieces) && 1 <= |s| <= 256
      ensures WellFormed(s) && RangesOf(s) == ranges
    {
      JoinedReads(pieces, ranges);
    }
  }

  /** The first part that is no range says what is wrong: its start, its end, or their order. */
  lemma ProblemsNamed(part: string)
    requires !IsRange(part)
    ensures var (p, problem) := (PieceOf(part), ParseRange(part).error);
      && p.Text() == part
      && (problem == Malformed || problem == ZeroPage || problem == Descending)
      && (problem == Descending <==> exists a: nat, b: nat :: PageNumeral(p.First(), a) && PageNumeral(p.Last(), b) && a > b)
      && (problem == ZeroPage ==> Number0(p.First()) || Number0(p.Last()))
  {
    PieceOfIs(part);
    PageNumberIs(PieceOf(part).First());
    PageNumberIs(PieceOf(part).Last());
    hide SplitOnce, PieceOf, Number;
  }

  /** Up to five zeros. */
  ghost predicate Number0(s: string) { 1 <= |s| <= 5 && Decimal(s) && Number(s) == 0 }
}
