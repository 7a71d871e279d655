/**
 * `process_text`: the same standardised lines scanned into rows of tagged
 * cells (`header<n>|…`, `bold|…`, `plain|…`) instead of typed runs, with
 * blank lines skipped and every plain or heading text trimmed.
 */
module TextTagger {
  import opened Strings
  import opened Tokens
  import opened Tokenizer

  /** The tagged heading cell of a line, if the line passes the heading test and has text after the markers. */
  function TaggedHeading(line: string): Option<string> {
    var trimmed := TrimStart(line);
    var n := HashCount(line);
    if 0 < n && StartsWith(trimmed, "#") && |trimmed| > n && trimmed[n] == ' ' && Trim(trimmed[n + 1..]) != [] then
      Some("header" + NatToString(n) + "|" + Trim(trimmed[n + 1..]))
    else None
  }

  /** The inner text of a bold run delimited by `d` at the start of `cur`, if the scanner accepts one. */
  function TaggedBoldAt(cur: string, d: string): (r: Option<string>)
    requires |d| == 2
    ensures r.Some? ==> r.value != [] && StartsWith(cur, d + r.value + d)
  {
    if !StartsWith(cur, d) then None
    else match Find(cur[|d|..], d)
      case None => None
      case Some(e) =>
        if e > 0 then
          assert cur[..|d| + e + |d|] == d + cur[|d|..][..e] + d by {
            assert cur[|d|..][e..e + |d|] == d;
          }
          Some(cur[|d|..][..e])
        else None
  }

  /** The first delimiter, in order, whose bold run is accepted, with the run's inner text. */
  function TaggedTryBold(cur: string): (r: Option<(string, string)>)
    ensures r.Some? ==> |r.value.0| == 2 && r.value.1 != [] && StartsWith(cur, r.value.0 + r.value.1 + r.value.0)
  {
    match TaggedBoldAt(cur, "**")
    case Some(t) => Some(("**", t))
    case None =>
      match TaggedBoldAt(cur, "__")
      case Some(t) => Some(("__", t))
      case None => None
  }

  /** A `plain|` cell for the trimmed text, or none when the trimmed text is empty. */
  function PlainCell(text: string): seq<string> {
    if Trim(text) == [] then [] else ["plain|" + Trim(text)]
  }

  /** One pass of the tagged inline scan: the cells it emits and what is left. */
  function TaggedStep(cur: string): (r: (seq<string>, string))
    requires cur != []
    ensures |r.1| < |cur| && r.1 == cur[|cur| - |r.1|..]
  {
    match TaggedTryBold(cur)
    case Some((d, t)) =>
      var consumed := |d| + |t| + |d|;
      (["bold|" + t], cur[consumed..])
    case None =>
      match NextOpener(cur)
      case Some(idx) =>
        if idx > 0 then (PlainCell(cur[..idx]), cur[idx..])
        else (PlainCell(cur), [])
      case None => (PlainCell(cur), [])
  }

  /** The tagged cells of a line that is not a heading with text. */
  function TaggedScan(cur: string): seq<string>
    decreases |cur|
  {
    if cur == [] then [] else
    var (cells, rest) := TaggedStep(cur);
    cells + TaggedScan(rest)
  }

  /** The row of tagged cells one non-blank line produces. */
  function TaggedRow(line: string): seq<string> {
    match TaggedHeading(line)
    case Some(h) => [h]
    case None => TaggedScan(line)
  }

  /** The rows of `lines`: blank lines and lines without cells produce no row. */
  function TaggedLines(lines: seq<string>): seq<seq<string>>
    decreases |lines|
  {
    if lines == [] then []
    else if IsBlank(lines[0]) || TaggedRow(lines[0]) == [] then TaggedLines(lines[1..])
    else [TaggedRow(lines[0])] + TaggedLines(lines[1..])
  }

  /** The tagged rows of a Markdown string. */
  function TaggedText(input: string): seq<seq<string>> {
    TaggedLines(Lines(Normalize(input)))
  }

  /** The tagged bold run the scan loop finds with the k-th delimiter is the one `TaggedTryBold` picks. */
  lemma TaggedTryBoldPicks(cur: string, k: nat, t: string)
    requires k < |BoldDelimiters|
    requires forall m :: 0 <= m < k ==> TaggedBoldAt(cur, BoldDelimiters[m]).None?
    requires TaggedBoldAt(cur, BoldDelimiters[k]) == Some(t)
    ensures TaggedTryBold(cur) == Some((BoldDelimiters[k], t))
  {
    if k == 1 {
      assert TaggedBoldAt(cur, BoldDelimiters[0]).None?;
    }
  }

  /** When no delimiter opens an accepted bold run, `TaggedTryBold` finds none. */
  lemma TaggedTryBoldNone(cur: string)
    requires forall m :: 0 <= m < |BoldDelimiters| ==> TaggedBoldAt(cur, BoldDelimiters[m]).None?
    ensures TaggedTryBold(cur) == None
  {
    assert TaggedBoldAt(cur, BoldDelimiters[0]).None?;
    assert TaggedBoldAt(cur, BoldDelimiters[1]).None?;
  }

  lemma TaggedStepBold(cur: string, d: string, t: string)
    requires cur != [] && TaggedTryBold(cur) == Some((d, t))
    ensures TaggedStep(cur).0 == ["bold|" + t] && TaggedStep(cur).1 == cur[|d| + |t| + |d|..]
  {
  }

  lemma TaggedStepPlain(cur: string)
    requires cur != [] && TaggedTryBold(cur) == None
    ensures var next := NextOpener(cur);
      next.Some? && next.value > 0 ==>
        TaggedStep(cur).0 == PlainCell(cur[..next.value]) && TaggedStep(cur).1 == cur[next.value..]
    ensures var next := NextOpener(cur);
      !(next.Some? && next.value > 0) ==> TaggedStep(cur).0 == PlainCell(cur) && TaggedStep(cur).1 == []
  {
  }

  /**
   * The delimiter loop of one tagged pass: try `**`, then `__`, and stop at
   * the first that encloses some text at the start of `current`.
   */
  method MatchTaggedBold(current: string) returns (bold: Option<(string, string)>)
    ensures bold == TaggedTryBold(current)
  {
    var k := 0;
    while k < |BoldDelimiters|
      invariant 0 <= k <= |BoldDelimiters|
      invariant forall m :: 0 <= m < k ==> TaggedBoldAt(current, BoldDelimiters[m]).None?
    {
      var open := BoldDelimiters[k];
      if StartsWith(current, open) {
        var endIdx := Find(current[|open|..], open);
        if endIdx.Some? {
          var boldText := current[|open|..|open| + endIdx.value];
          if boldText != [] {
            assert boldText == current[|open|..][..endIdx.value];
            TaggedTryBoldPicks(current, k, boldText);
            return Some((open, boldText));
          }
        }
      }
      k := k + 1;
    }
    TaggedTryBoldNone(current);
    return None;
  }

  /** One pass of the tagged scanning loop. */
  method TaggedScanStep(current: string) returns (cells: seq<string>, rest: string)
    requires current != []
    ensures cells == TaggedStep(current).0 && rest == TaggedStep(current).1
  {
    var bold := MatchTaggedBold(current);
    if bold.Some? {
      var (open, boldText) := bold.value;
      TaggedStepBold(current, open, boldText);
      cells := ["bold|" + boldText];
      rest := current[|open| + |boldText| + |open|..];
      return;
    }
    TaggedStepPlain(current);
    cells := [];
    var nextBold := NextOpener(current);
    if nextBold.Some? && nextBold.value > 0 {
      var plainText := Trim(current[..nextBold.value]);
      if plainText != [] {
        cells := ["plain|" + plainText];
      }
      rest := current[nextBold.value..];
    } else {
      var plainText := Trim(current);
      if plainText != [] {
        cells := ["plain|" + plainText];
      }
      rest := [];
    }
  }

  lemma TaggedScanUnfold(cur: string)
    requires cur != []
    ensures TaggedScan(cur) == TaggedStep(cur).0 + TaggedScan(TaggedStep(cur).1)
  {
  }

  /** The tagged scanning loop over one line. */
  method TaggedScanLine(line: string) returns (row: seq<string>)
    ensures row == TaggedScan(line)
  {
    row := [];
    var current := line;
    while current != []
      invariant row + TaggedScan(current) == TaggedScan(line)
      decreases |current|
    {
      var cells, rest := TaggedScanStep(current);
      TaggedScanUnfold(current);
      assert row + TaggedScan(current) == (row + cells) + TaggedScan(rest);
      row := row + cells;
      current := rest;
    }
  }

  /** The row of one non-blank line: a tagged heading cell, or the tagged inline cells. */
  method ProcessTextLine(line: string) returns (row: seq<string>)
    ensures row == TaggedRow(line)
  {
    var trimmed := TrimStart(line);
    var headerLevel := HashCount(line);
    if 0 < headerLevel && StartsWith(trimmed, "#") && |trimmed| > headerLevel && trimmed[headerLevel] == ' ' {
      var headerText := Trim(trimmed[headerLevel + 1..]);
      if headerText != [] {
        row := ["header" + NatToString(headerLevel) + "|" + headerText];
        return;
      }
    }
    row := TaggedScanLine(line);
  }

  lemma TaggedLinesUnfold(lines: seq<string>, i: nat)
    requires i < |lines|
    ensures var row := TaggedRow(lines[i]);
      TaggedLines(lines[i..]) ==
        (if IsBlank(lines[i]) || row == [] then [] else [row]) + TaggedLines(lines[i + 1..])
  {
    assert lines[i..][1..] == lines[i + 1..];
  }

  /** `process_text`: standardise, split into lines, skip blank lines and keep every non-empty row. */
  method ProcessText(input: string) returns (result: seq<seq<string>>)
    ensures result == TaggedText(input)
  {
    var standardized := Normalize(input);
    var lines := Lines(standardized);
    result := [];
    for i := 0 to |lines|
      invariant result + TaggedLines(lines[i..]) == TaggedLines(lines)
    {
      var line := lines[i];
      TaggedLinesUnfold(lines, i);
      if Trim(line) == [] {
        continue;
      }
      var row := ProcessTextLine(line);
      if row != [] {
        assert result + TaggedLines(lines[i..]) == (result + [row]) + TaggedLines(lines[i + 1..]);
        result := result + [row];
      }
    }
    assert lines[|lines|..] == [];
  }
}
