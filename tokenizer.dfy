/**
 * `TextProcessor::process_markdown`: a Markdown string becomes a grid of
 * typed runs. The functions give the meaning of one scan step, one line and
 * the whole text; `ScanLine` and `ProcessMarkdown` are the loops that compute it.
 */
module Tokenizer {
  import opened Strings
  import opened Tokens

  /** What an escaped `\n` (backslash, `n`) is swapped for before lines are split. */
  const NewlinePlaceholder: string := "__LITERAL_NEWLINE__"

  /** The bold delimiters in the order they are tried; each closes its own run. */
  const BoldDelimiters: seq<string> := ["**", "__"]

  /**
   * Input standardisation: the escape placeholder, tabs as four spaces,
   * `\r\n` and lone `\r` as `\n`. No tab and no carriage return survives.
   */
  function Normalize(input: string): (t: string)
    ensures '\t' !in t && '\r' !in t
  {
    var temp := Replace(input, "\\n", NewlinePlaceholder);
    var withoutTabs := Replace(temp, "\t", "    ");
    var crlf := Replace(withoutTabs, "\r\n", "\n");
    ReplaceRemoves(temp, "\t", "    ");
    ReplaceChars(withoutTabs, "\r\n", "\n", '\t');
    ReplaceChars(crlf, "\r", "\n", '\t');
    ReplaceRemoves(crlf, "\r", "\n");
    Replace(crlf, "\r", "\n")
  }

  /** `line.chars().take_while(|c| *c == '#').count()` */
  function HashCount(line: string): (n: nat)
    ensures n <= |line|
    ensures forall i :: 0 <= i < n ==> line[i] == '#'
    ensures n < |line| ==> line[n] != '#'
  {
    if |line| == 0 || line[0] != '#' then 0 else 1 + HashCount(line[1..])
  }

  /** The heading test exactly as the scanner writes it. */
  predicate IsHeadingLine(line: string) {
    var trimmed := TrimStart(line);
    var n := HashCount(line);
    0 < n <= 6 && StartsWith(trimmed, "#") && |trimmed| > n && trimmed[n] == ' '
  }

  /** The stored heading text: the markers, one space, then the rest of the line. */
  function HeadingText(line: string): string
    requires IsHeadingLine(line)
  {
    var n := HashCount(line);
    "#" + Repeat('#', n - 1) + " " + TrimStart(line)[n + 1..]
  }

  /**
   * A bold run of delimiter `d`: longer than its two delimiters, opened and
   * closed by `d`, and closed at the first `d` after the opener.
   */
  predicate WellFormedBold(b: string, d: string) {
    |b| > |d| + |d| && StartsWith(b, d) && b[|b| - |d|..] == d &&
    forall p :: |d| <= p < |b| - |d| ==> !OccursAt(b, d, p)
  }

  /** The bold run delimited by `d` at the start of `cur`, if the scanner accepts one there. */
  function BoldAt(cur: string, d: string): (r: Option<string>)
    requires |d| == 2
    ensures r.Some? ==> StartsWith(cur, r.value) && WellFormedBold(r.value, d)
  {
    if !StartsWith(cur, d) then None
    else match Find(cur[|d|..], d)
      case None => None
      case Some(e) =>
        var b := cur[..|d| + e + |d|];
        if |b| > |d| + |d| then
          assert b[|b| - |d|..] == cur[|d|..][e..e + |d|];
          assert forall p :: |d| <= p < |b| - |d| ==> !OccursAt(b, d, p) by {
            forall p | |d| <= p < |b| - |d| ensures !OccursAt(b, d, p) {
              assert !OccursAt(cur[|d|..], d, p - |d|);
              assert b[p..p + |d|] == cur[p..p + |d|];
              assert cur[|d|..][p - |d|..p] == cur[p..p + |d|];
            }
          }
          assert b[..|d|] == cur[..|d|];
          Some(b)
        else None
  }

  /** The first delimiter, in order, that opens an accepted bold run at the start of `cur`. */
  function TryBold(cur: string): (r: Option<string>)
    ensures r.Some? ==> StartsWith(cur, r.value) && |r.value| > 4
  {
    match BoldAt(cur, "**")
    case Some(b) => Some(b)
    case None => BoldAt(cur, "__")
  }

  /** The nearest offset at which either delimiter occurs (the earlier one on a tie). */
  function NextOpener(cur: string): (r: Option<nat>)
    ensures r.Some? ==> OccursAt(cur, "**", r.value) || OccursAt(cur, "__", r.value)
  {
    match (Find(cur, "**"), Find(cur, "__"))
    case (Some(a), Some(b)) => Some(if a <= b then a else b)
    case (Some(a), None) => Some(a)
    case (None, Some(b)) => Some(b)
    case (None, None) => None
  }

  /** The rest of the line as one plain run, dropped when it is blank. */
  function RestAsPlain(cur: string): (Row, string) {
    (if IsBlank(cur) then [] else [PlainText(cur)], [])
  }

  /**
   * One iteration of the inline scan: the runs it emits and what is left.
   * What is left is a strictly shorter suffix, so the scan terminates.
   */
  function Step(cur: string): (r: (Row, string))
    requires cur != []
    ensures |r.1| < |cur| && r.1 == cur[|cur| - |r.1|..]
  {
    match TryBold(cur)
    case Some(b) =>
      var n := LeadingWhitespace(cur[|b|..]);
      if n > 0 then ([BoldText(b), PlainText(Repeat(' ', n))], cur[|b| + n..])
      else ([BoldText(b)], cur[|b|..])
    case None =>
      match NextOpener(cur)
      case Some(idx) =>
        if idx > 0 then (if IsBlank(cur[..idx]) then [] else [PlainText(cur[..idx])], cur[idx..])
        else RestAsPlain(cur)
      case None => RestAsPlain(cur)
  }

  /** The runs of a non-heading line. */
  function ScanInline(cur: string): Row
    decreases |cur|
  {
    if cur == [] then [] else
    var (emitted, rest) := Step(cur);
    emitted + ScanInline(rest)
  }

  /** The row a non-blank line produces (possibly empty, which is then not emitted). */
  function LineRow(line: string): Row {
    if IsHeadingLine(line) then [Heading(MakeHeading(HashCount(line), HeadingText(line)))]
    else ScanInline(line)
  }

  /** `k` rows of one `EmptySpace` run each. */
  function EmptyRows(k: nat): seq<Row>
  {
    if k == 0 then [] else [[EmptySpace]] + EmptyRows(k - 1)
  }

  /** The row a non-blank line adds to the result: none when it has no runs. */
  function EmittedRows(line: string): seq<Row> {
    var row := LineRow(line);
    if row == [] then [] else [row]
  }

  /** The rows produced from `lines` onward when `pending` blank lines are not yet flushed. */
  function TokenizeLines(lines: seq<string>, pending: nat): seq<Row>
    decreases |lines|
  {
    if lines == [] then EmptyRows(pending) + [[EmptySpace]]
    else if IsBlank(lines[0]) then TokenizeLines(lines[1..], pending + 1)
    else EmptyRows(pending) + EmittedRows(lines[0]) + TokenizeLines(lines[1..], 0)
  }

  /** The grid of runs a Markdown string tokenizes to. */
  function Tokenize(input: string): seq<Row> {
    TokenizeLines(Lines(Normalize(input)), 0)
  }

  /** The scan loop's invariant survives one step: the runs of the step move from the scan into the row. */
  lemma ScanAdvance(line: string, before: string, rowBefore: Row, emitted: Row, current: string)
    requires before != []
    requires rowBefore + ScanInline(before) == ScanInline(line)
    requires emitted == Step(before).0 && current == Step(before).1
    ensures (rowBefore + emitted) + ScanInline(current) == ScanInline(line)
  {
    assert ScanInline(before) == emitted + ScanInline(current);
  }

  /** The bold run the scan loop finds with the k-th delimiter is the one `TryBold` picks. */
  lemma TryBoldPicks(cur: string, k: nat, b: string)
    requires k < |BoldDelimiters|
    requires forall m :: 0 <= m < k ==> BoldAt(cur, BoldDelimiters[m]).None?
    requires BoldAt(cur, BoldDelimiters[k]) == Some(b)
    ensures TryBold(cur) == Some(b)
  {
    if k == 1 {
      assert BoldAt(cur, BoldDelimiters[0]).None?;
    }
  }

  /** When no delimiter opens an accepted bold run, `TryBold` finds none. */
  lemma TryBoldNone(cur: string)
    requires forall m :: 0 <= m < |BoldDelimiters| ==> BoldAt(cur, BoldDelimiters[m]).None?
    ensures TryBold(cur) == None
  {
    assert BoldAt(cur, BoldDelimiters[0]).None?;
    assert BoldAt(cur, BoldDelimiters[1]).None?;
  }

  /** A step that starts with an accepted bold run. */
  lemma StepBold(cur: string, b: string)
    requires cur != [] && TryBold(cur) == Some(b)
    ensures LeadingWhitespace(cur[|b|..]) > 0 ==>
      Step(cur).0 == [BoldText(b), PlainText(Repeat(' ', LeadingWhitespace(cur[|b|..])))] &&
      Step(cur).1 == cur[|b| + LeadingWhitespace(cur[|b|..])..]
    ensures LeadingWhitespace(cur[|b|..]) == 0 ==>
      Step(cur).0 == [BoldText(b)] && Step(cur).1 == cur[|b|..]
  {
  }

  /** A step that does not start with an accepted bold run. */
  lemma StepPlain(cur: string)
    requires cur != [] && TryBold(cur) == None
    ensures var next := NextOpener(cur);
      next.Some? && next.value > 0 ==>
        Step(cur).0 == (if IsBlank(cur[..next.value]) then [] else [PlainText(cur[..next.value])]) &&
        Step(cur).1 == cur[next.value..]
    ensures var next := NextOpener(cur);
      !(next.Some? && next.value > 0) ==>
        Step(cur).0 == (if IsBlank(cur) then [] else [PlainText(cur)]) && Step(cur).1 == []
  {
  }

    /**
   * The delimiter loop of one pass: try `**`, then `__`, and stop at the
   * first that opens an accepted bold run at the start of `current`.
   */
  method MatchBold(current: string) returns (bold: Option<string>)
    ensures bold == TryBold(current)
  {
    var k := 0;
    while k < |BoldDelimiters|
      invariant 0 <= k <= |BoldDelimiters|
      invariant forall m :: 0 <= m < k ==> BoldAt(current, BoldDelimiters[m]).None?
    {
      var open := BoldDelimiters[k];
      if StartsWith(current, open) {
        var endIdx := Find(current[|open|..], open);
        if endIdx.Some? {
          var boldEnd := |open| + endIdx.value + |open|;
          var boldText := current[..boldEnd];
          if |boldText| > |open| + |open| {
            assert BoldAt(current, open) == Some(boldText);
            TryBoldPicks(current, k, boldText);
            return Some(boldText);
          }
        }
      }
      k := k + 1;
    }
    TryBoldNone(current);
    return None;
  }

  /**
   * One pass of the inline scanning loop: a bold run and the spaces after it,
   * otherwise plain text up to the next delimiter or the end of the line.
   */
  method ScanStep(current: string) returns (emitted: Row, rest: string)
    requires current != []
    ensures emitted == Step(current).0 && rest == Step(current).1
  {
    var bold := MatchBold(current);
    if bold.Some? {
      var boldText := bold.value;
      StepBold(current, boldText);
      var boldEnd := |boldText|;
      var trailing := current[boldEnd..];
      var trailingSpaces := LeadingWhitespace(trailing);
      if trailingSpaces > 0 {
        emitted := [BoldText(boldText), PlainText(Repeat(' ', trailingSpaces))];
        rest := current[boldEnd + trailingSpaces..];
      } else {
        emitted := [BoldText(boldText)];
        rest := current[boldEnd..];
      }
      return;
    }
    StepPlain(current);
    emitted := [];
    var nextBold := NextOpener(current);
    if nextBold.Some? && nextBold.value > 0 {
      var plainText := current[..nextBold.value];
      if Trim(plainText) != [] {
        emitted := [PlainText(plainText)];
      }
      rest := current[nextBold.value..];
    } else {
      var plainText := current;
      if Trim(plainText) != [] {
        emitted := [PlainText(plainText)];
      }
      rest := [];
    }
  }

  /** The inline scanning loop over one line: `current` shrinks on every pass. */
  method ScanLine(line: string) returns (row: Row)
    ensures row == ScanInline(line)
  {
    row := [];
    var current := line;
    while current != []
      invariant row + ScanInline(current) == ScanInline(line)
      decreases |current|
    {
      var emitted, rest := ScanStep(current);
      ScanAdvance(line, current, row, emitted, rest);
      row := row + emitted;
      current := rest;
    }
  }

  /** The row of one non-blank line: a heading row, or the runs of the inline scan. */
  method ProcessLine(line: string) returns (row: Row)
    ensures row == LineRow(line)
  {
    var trimmed := TrimStart(line);
    var headerLevel := HashCount(line);
    if 0 < headerLevel <= 6 && StartsWith(trimmed, "#") && |trimmed| > headerLevel && trimmed[headerLevel] == ' ' {
      var headerText := "#" + Repeat('#', headerLevel - 1) + " " + trimmed[headerLevel + 1..];
      row := [Heading(MakeHeading(headerLevel, headerText))];
    } else {
      row := ScanLine(line);
    }
  }

  /** The line loop's invariant across one line, blank or not. */
  lemma TokenizeLinesUnfold(lines: seq<string>, i: nat, pending: nat)
    requires i < |lines|
    ensures IsBlank(lines[i]) ==> TokenizeLines(lines[i..], pending) == TokenizeLines(lines[i + 1..], pending + 1)
    ensures !IsBlank(lines[i]) ==>
      TokenizeLines(lines[i..], pending) == EmptyRows(pending) + EmittedRows(lines[i]) + TokenizeLines(lines[i + 1..], 0)
  {
    assert lines[i..][1..] == lines[i + 1..];
  }

  /** Regrouping of the line loop's invariant once a non-blank line's rows are appended. */
  lemma RegroupRows(before: seq<Row>, flushedRows: seq<Row>, emitted: seq<Row>, rest: seq<Row>, target: seq<Row>)
    requires before + (flushedRows + emitted + rest) == target
    ensures (before + flushedRows + emitted) + rest == target
  {
    assert before + (flushedRows + emitted + rest) == (before + flushedRows + emitted) + rest;
  }

  /** The flush loop the tokenizer runs before a non-blank row and at the end: one `EmptySpace` row per pending blank line. */
  method FlushEmptyRows(result: seq<Row>, emptyCount: nat) returns (flushed: seq<Row>)
    ensures flushed == result + EmptyRows(emptyCount)
  {
    flushed := result;
    var count := emptyCount;
    while count > 0
      invariant flushed + EmptyRows(count) == result + EmptyRows(emptyCount)
    {
      assert EmptyRows(count) == [[EmptySpace]] + EmptyRows(count - 1);
      flushed := flushed + [[EmptySpace]];
      count := count - 1;
    }
  }

  /** The tokenizer's line loop: blank lines are counted and flushed before the next row, and a sentinel row closes the grid. */
  method ProcessLines(lines: seq<string>) returns (result: seq<Row>)
    ensures result == TokenizeLines(lines, 0)
  {
    result := [];
    var emptyCount: nat := 0;
    for i := 0 to |lines|
      invariant result + TokenizeLines(lines[i..], emptyCount) == TokenizeLines(lines, 0)
    {
      var line := lines[i];
      TokenizeLinesUnfold(lines, i, emptyCount);
      if Trim(line) == [] {
        emptyCount := emptyCount + 1;
      } else {
        ghost var before := result;
        ghost var emptyCount0 := emptyCount;
        result := FlushEmptyRows(result, emptyCount);
        ghost var flushed := result;
        emptyCount := 0;
        var row := ProcessLine(line);
        if row != [] {
          result := result + [row];
        }
        assert result == flushed + EmittedRows(line);
        RegroupRows(before, EmptyRows(emptyCount0), EmittedRows(line), TokenizeLines(lines[i + 1..], 0), TokenizeLines(lines, 0));
      }
    }
    assert lines[|lines|..] == [];
    result := FlushEmptyRows(result, emptyCount);
    result := result + [[EmptySpace]];
  }

  /** `process_markdown`: standardise the input, split it into lines and run the line loop. */
  method ProcessMarkdown(input: string) returns (result: seq<Row>)
    ensures result == Tokenize(input)
  {
    var standardized := Normalize(input);
    var lines := Lines(standardized);
    result := ProcessLines(lines);
  }
}
